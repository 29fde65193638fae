/**
 utils/wrappers/packing.go: the byte buffer marshal appends to and unmarshal reads from.
 */
module Packing {
  import opened Wrappers
  import opened Bytes
  import opened Codec

  class Packer {
    const maxSize: int
    var bytes: bytes
    var offset: nat
    var errored: bool

    // An empty buffer that may grow to maxSize bytes.
    constructor (maxSize: int)
      ensures this.maxSize == maxSize && bytes == [] && offset == 0 && !errored
    {
      this.maxSize := maxSize;
      bytes, offset, errored := [], 0, false;
    }

    // A buffer to read from.
    constructor Reading(b: bytes)
      ensures bytes == b && offset == 0 && !errored
    {
      maxSize, bytes, offset, errored := 0, b, 0, false;
    }

    // Ready to append: no error, and the offset is at the end.
    predicate Appending()
      reads this
    {
      !errored && offset == |bytes|
    }

    // Ready to read on.
    predicate InBounds()
      reads this
    {
      !errored && offset <= |bytes|
    }

    function Unread(): bytes
      requires InBounds()
      reads this
    {
      bytes[offset..]
    }

    // Appends b, unless the buffer would grow beyond maxSize.
    method PackFixedBytes(b: bytes)
      requires Appending()
      modifies this
      ensures errored <==> b != [] && |old(bytes)| + |b| > maxSize
      ensures !errored ==> Appending() && bytes == old(bytes) + b
    {
      var needed := |b| + offset;
      if needed > |bytes| {
        if needed > maxSize {
          errored := true;
          return;
        }
        bytes := bytes + b;
      }
      offset := needed;
    }

    method PackUint(n: nat, width: nat)
      requires Appending() && width > 0
      modifies this
      ensures errored <==> |old(bytes)| + width > maxSize
      ensures !errored ==> Appending() && bytes == old(bytes) + ToBigEndian(n, width)
    {
      PackFixedBytes(ToBigEndian(n, width));
    }

    method UnpackFixedBytes(size: nat) returns (b: bytes)
      requires InBounds()
      modifies this
      ensures bytes == old(bytes) && errored == Take(old(Unread()), size).Malformed?
      ensures !errored ==>
                InBounds() && Take(old(Unread()), size) == Parsed(b, Unread()) && offset == old(offset) + size
    {
      if |bytes| - offset < size {
        errored := true;
        return [];
      }
      b := bytes[offset..offset + size];
      offset := offset + size;
      assert old(Unread())[..size] == b && old(Unread())[size..] == Unread();
    }

    method UnpackUint(width: nat) returns (n: nat)
      requires InBounds()
      modifies this
      ensures bytes == old(bytes) && errored == DecodeUint(old(Unread()), width).Malformed?
      ensures !errored ==>
                InBounds() && DecodeUint(old(Unread()), width) == Parsed(n, Unread()) && offset == old(offset) + width
    {
      var b := UnpackFixedBytes(width);
      n := FromBigEndian(b);
    }
  }
}
