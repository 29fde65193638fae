/**
 network/network.go and network/tracked_ip.go: which peers are tracked, connecting and connected.

 A step is what one goroutine does under the peers lock, or one call to the router. Peer objects make
 their callbacks one after the other, as Connected and Disconnected demand: the handshake ends at most
 once, and the end of the connection comes after that. Validators change at any time; the node ID at
 the other end of a connection, the subnets it tracks and the results of dialing are arbitrary.
 */
module Network {
  import opened Wrappers

  type NodeID = int
  type SubnetID = int

  const PRIMARY: SubnetID := 0

  // What a peer object will do next.
  datatype Stage =
    | Handshaking         // started, in connectingPeers
    | Announcing          // moved to connectedPeers, about to call router.Connected for the primary network
    | Running(left: set<SubnetID>)  // about to call router.Connected for the subnets in left, if any
    | LeavingConnecting   // in Disconnected, found in connectingPeers
    | LeavingRouter       // in Disconnected, found in connectedPeers, about to call router.Disconnected
    | LeavingConnected    // about to leave connectedPeers
    | Gone

  // A peer object; its subnets, of those this node tracks, are known after the handshake.
  datatype Peer = Peer(node: NodeID, subnets: set<SubnetID>, stage: Stage)

  // A trackedIP: whose address, how recent, and whether onStopTracking is closed.
  datatype Tracker = Tracker(node: NodeID, timestamp: nat, stopped: bool)

  // A goroutine started by dial.
  datatype DialStage = Waiting | Dialing | Exited
  datatype Dialer = Dialer(node: NodeID, tracker: nat, stage: DialStage)

  // A call of the router.
  datatype Event = Connected(subnet: SubnetID) | Disconnected
  datatype Notification = Notification(node: NodeID, event: Event)

  // connectingPeers, connectedPeers and all peer objects ever started.
  datatype Peers = Peers(connecting: map<NodeID, nat>, connected: map<NodeID, nat>, all: seq<Peer>)

  // trackedIPs and all trackers ever made.
  datatype Tracking = Tracking(trackedIPs: map<NodeID, nat>, all: seq<Tracker>)

  // What does not change, and whom this node wants to connect to.
  datatype Wishes = Wishes(
    me: NodeID,
    mySubnets: set<SubnetID>,
    requireValidator: bool,
    validators: set<NodeID>,
    manuallyTracked: set<NodeID>)

  datatype State = State(
    wishes: Wishes,
    peers: Peers,
    tracking: Tracking,
    dialers: seq<Dialer>,
    upgrading: multiset<NodeID>,
    closing: bool,
    router: seq<Notification>)

  datatype Action =
    | CheckUpgrade(node: NodeID)
    | FinishUpgrade(node: NodeID)
    | FinishHandshake(peer: nat, subnets: set<SubnetID>)
    | NotifyConnected(peer: nat)
    | NotifySubnet(peer: nat, subnet: SubnetID)
    | BeginDisconnect(peer: nat)
    | LeaveConnecting(peer: nat)
    | NotifyDisconnected(peer: nat)
    | LeaveConnected(peer: nat, timestamp: nat)
    | Track(node: NodeID, timestamp: nat)
    | ManuallyTrack(node: NodeID)
    | DialerStops(dialer: nat)
    | DialerChecks(dialer: nat)
    | DialEnds(dialer: nat, reached: bool)
    | SetValidators(validators: set<NodeID>)
    | StartClose

  // The primary network is not among the subnets a node can be configured to track.
  function Initial(me: NodeID, mySubnets: set<SubnetID>, requireValidator: bool, validators: set<NodeID>): State
    requires PRIMARY !in mySubnets
  {
    State(Wishes(me, mySubnets, requireValidator, validators, {}),
          Peers(map[], map[], []), Tracking(map[], []), [], multiset{}, false, [])
  }

  predicate WantsConnection(w: Wishes, node: NodeID) {
    node in w.validators || node in w.manuallyTracked
  }

  predicate AllowConnection(w: Wishes, node: NodeID) {
    !w.requireValidator || w.me in w.validators || WantsConnection(w, node)
  }

  // ---------- Peers ----------

  predicate PeerAt(ps: Peers, p: nat, stage: Stage) {
    p < |ps.all| && ps.all[p].stage == stage
  }

  function WithStage(ps: Peers, p: nat, stage: Stage): Peers
    requires p < |ps.all|
  {
    ps.(all := ps.all[p := ps.all[p].(stage := stage)])
  }

  function Started(ps: Peers, node: NodeID): Peers {
    ps.(all := ps.all + [Peer(node, {}, Handshaking)], connecting := ps.connecting[node := |ps.all|])
  }

  function Moved(ps: Peers, p: nat, subnets: set<SubnetID>): Peers
    requires p < |ps.all| && ps.all[p].node in ps.connecting
  {
    var node := ps.all[p].node;
    Peers(ps.connecting - {node}, ps.connected[node := ps.connecting[node]],
          ps.all[p := Peer(node, subnets, Announcing)])
  }

  function DroppedConnecting(ps: Peers, p: nat): Peers
    requires p < |ps.all|
  {
    WithStage(ps, p, Gone).(connecting := ps.connecting - {ps.all[p].node})
  }

  function DroppedConnected(ps: Peers, p: nat): Peers
    requires p < |ps.all|
  {
    WithStage(ps, p, Gone).(connected := ps.connected - {ps.all[p].node})
  }

  // ---------- Trackers ----------

  function StopAt(all: seq<Tracker>, t: nat): seq<Tracker> {
    if t < |all| then all[t := all[t].(stopped := true)] else all
  }

  // Stops the node's tracker, if any, and forgets it.
  function Untracked(tr: Tracking, node: NodeID): Tracking {
    if node in tr.trackedIPs then Tracking(tr.trackedIPs - {node}, StopAt(tr.all, tr.trackedIPs[node])) else tr
  }

  // A new tracker for the node. An old entry is overwritten.
  function Tracked(tr: Tracking, node: NodeID, timestamp: nat): Tracking {
    Tracking(tr.trackedIPs[node := |tr.all|], tr.all + [Tracker(node, timestamp, false)])
  }

  function AllStopped(tr: Tracking): Tracking {
    Tracking(map[], seq(|tr.all|, i requires 0 <= i < |tr.all| =>
      if tr.all[i].node in tr.trackedIPs && tr.trackedIPs[tr.all[i].node] == i then tr.all[i].(stopped := true)
          else tr.all[i]))
  }

  function TimestampOf(tr: Tracking, node: NodeID): nat {
    if node in tr.trackedIPs && tr.trackedIPs[node] < |tr.all| then tr.all[tr.trackedIPs[node]].timestamp else 0
  }

  // ---------- Steps ----------

  predicate DialerAt(s: State, d: nat, stage: DialStage) {
    d < |s.dialers| && s.dialers[d].stage == stage
  }

  predicate Enabled(s: State, a: Action) {
    match a
    case FinishUpgrade(node) => node in s.upgrading
    case FinishHandshake(p, subnets) => PeerAt(s.peers, p, Handshaking) && subnets <= s.wishes.mySubnets
    case NotifyConnected(p) => PeerAt(s.peers, p, Announcing)
    case NotifySubnet(p, subnet) =>
      p < |s.peers.all| && s.peers.all[p].stage.Running? && subnet in s.peers.all[p].stage.left
    case BeginDisconnect(p) => PeerAt(s.peers, p, Handshaking) || PeerAt(s.peers, p, Running({}))
    case LeaveConnecting(p) => PeerAt(s.peers, p, LeavingConnecting)
    case NotifyDisconnected(p) => PeerAt(s.peers, p, LeavingRouter)
    case LeaveConnected(p, _) => PeerAt(s.peers, p, LeavingConnected)
    case DialerStops(d) =>
      DialerAt(s, d, Waiting) && s.dialers[d].tracker < |s.tracking.all| && s.tracking.all[s.dialers[d].tracker].stopped
    case DialerChecks(d) => DialerAt(s, d, Waiting)
    case DialEnds(d, _) => DialerAt(s, d, Dialing)
    case _ => true
  }

  function WithDial(s: State, d: nat, stage: DialStage): State
    requires d < |s.dialers|
  {
    s.(dialers := s.dialers[d := s.dialers[d].(stage := stage)])
  }

  // dial: the node's new tracker gets a goroutine.
  function Dialed(s: State, tr: Tracking, node: NodeID, timestamp: nat): State {
    s.(tracking := Tracked(tr, node, timestamp), dialers := s.dialers + [Dialer(node, |tr.all|, Waiting)])
  }

  // Connected: an unexpected peer is only logged.
  function Handshaken(s: State, p: nat, subnets: set<SubnetID>): State
    requires p < |s.peers.all|
  {
    var node := s.peers.all[p].node;
    if node !in s.peers.connecting then s.(peers := WithStage(s.peers, p, Running({})))
    else s.(peers := Moved(s.peers, p, subnets), tracking := Untracked(s.tracking, node))
  }

  // disconnectedFromConnecting: trackNewIP stops the old tracker and makes a new one for the same address.
  function LeftConnecting(s: State, p: nat): State
    requires p < |s.peers.all|
  {
    var node := s.peers.all[p].node;
    var left := s.(peers := DroppedConnecting(s.peers, p));
    if node !in s.tracking.trackedIPs then left
    else if WantsConnection(s.wishes, node) then
        Dialed(left, Untracked(s.tracking, node), node, TimestampOf(s.tracking, node))
    else left.(tracking := Untracked(s.tracking, node))
  }

  // disconnectedFromConnected: an entry of the node would be overwritten or dropped without being stopped.
  function LeftConnected(s: State, p: nat, timestamp: nat): State
    requires p < |s.peers.all|
  {
    var node := s.peers.all[p].node;
    var left := s.(peers := DroppedConnected(s.peers, p));
    if WantsConnection(s.wishes, node) then Dialed(left, s.tracking, node, timestamp)
    else left.(tracking := s.tracking.(trackedIPs := s.tracking.trackedIPs - {node}))
  }

  function TrackedClaim(s: State, node: NodeID, timestamp: nat): State {
    if node in s.peers.connected then s
    else if node in s.tracking.trackedIPs then
      if TimestampOf(s.tracking, node) >= timestamp then s else Dialed(s, Untracked(s.tracking, node), node, timestamp)
    else if WantsConnection(s.wishes, node) then Dialed(s, s.tracking, node, timestamp)
    else s
  }

  function TrackedManually(s: State, node: NodeID): State {
    var t := s.(wishes := s.wishes.(manuallyTracked := s.wishes.manuallyTracked + {node}));
    if node in s.peers.connected || node in s.tracking.trackedIPs then t else Dialed(t, s.tracking, node, 0)
  }

  function DialChecked(s: State, d: nat): State
    requires d < |s.dialers|
  {
    var node := s.dialers[d].node;
    if !WantsConnection(s.wishes, node) then WithDial(s, d, Exited).(tracking := Untracked(s.tracking, node))
    else WithDial(s, d, if node in s.peers.connecting || node in s.peers.connected then Exited else Dialing)
  }

  // The part of upgrade under the lock.
  function Upgraded(s: State, node: NodeID): State {
    var t := s.(upgrading := s.upgrading - multiset{node});
    if s.closing || node in s.peers.connecting || node in s.peers.connected then t
        else t.(peers := Started(s.peers, node))
  }

  function DisconnectStage(ps: Peers, node: NodeID): Stage {
    if node in ps.connecting then LeavingConnecting else if node in ps.connected then LeavingRouter else Gone
  }

  function Notified(s: State, p: nat, stage: Stage, event: Event): State
    requires p < |s.peers.all|
  {
    s.(peers := WithStage(s.peers, p, stage), router := s.router + [Notification(s.peers.all[p].node, event)])
  }

  function Next(s: State, a: Action): State
    requires Enabled(s, a)
  {
    match a
    case CheckUpgrade(node) =>
      if node != s.wishes.me && AllowConnection(s.wishes, node) then s.(upgrading := s.upgrading + multiset{node})
          else s
    case FinishUpgrade(node) => Upgraded(s, node)
    case FinishHandshake(p, subnets) => Handshaken(s, p, subnets)
    case NotifyConnected(p) => Notified(s, p, Running(s.peers.all[p].subnets), Connected(PRIMARY))
    case NotifySubnet(p, subnet) => Notified(s, p, Running(s.peers.all[p].stage.left - {subnet}), Connected(subnet))
    case BeginDisconnect(p) => s.(peers := WithStage(s.peers, p, DisconnectStage(s.peers, s.peers.all[p].node)))
    case LeaveConnecting(p) => LeftConnecting(s, p)
    case NotifyDisconnected(p) => Notified(s, p, LeavingConnected, Disconnected)
    case LeaveConnected(p, timestamp) => LeftConnected(s, p, timestamp)
    case Track(node, timestamp) => TrackedClaim(s, node, timestamp)
    case ManuallyTrack(node) => TrackedManually(s, node)
    case DialerStops(d) => WithDial(s, d, Exited)
    case DialerChecks(d) => DialChecked(s, d)
    case DialEnds(d, reached) => WithDial(s, d, if reached then Exited else Waiting)
    case SetValidators(vs) => s.(wishes := s.wishes.(validators := vs))
    case StartClose => if s.closing then s else s.(closing := true, tracking := AllStopped(s.tracking))
  }

  // What a step does to the peers...
  function PeersAfter(s: State, a: Action): Peers
    requires Enabled(s, a)
  {
    var ps := s.peers;
    match a
    case FinishUpgrade(node) =>
      if s.closing || node in ps.connecting || node in ps.connected then ps else Started(ps, node)
    case FinishHandshake(p, subnets) =>
      if ps.all[p].node in ps.connecting then Moved(ps, p, subnets) else WithStage(ps, p, Running({}))
    case NotifyConnected(p) => WithStage(ps, p, Running(ps.all[p].subnets))
    case NotifySubnet(p, subnet) => WithStage(ps, p, Running(ps.all[p].stage.left - {subnet}))
    case BeginDisconnect(p) => WithStage(ps, p, DisconnectStage(ps, ps.all[p].node))
    case LeaveConnecting(p) => DroppedConnecting(ps, p)
    case NotifyDisconnected(p) => WithStage(ps, p, LeavingConnected)
    case LeaveConnected(p, _) => DroppedConnected(ps, p)
    case _ => ps
  }

  // ... and to the trackers.
  function TrackingAfter(s: State, a: Action): Tracking
    requires Enabled(s, a)
  {
    var tr := s.tracking;
    match a
    case FinishHandshake(p, _) =>
      if s.peers.all[p].node in s.peers.connecting then Untracked(tr, s.peers.all[p].node) else tr
    case LeaveConnecting(p) =>
      var node := s.peers.all[p].node;
      if node !in tr.trackedIPs then tr
      else if WantsConnection(s.wishes, node) then Tracked(Untracked(tr, node), node, TimestampOf(tr, node))
      else Untracked(tr, node)
    case LeaveConnected(p, timestamp) =>
      var node := s.peers.all[p].node;
      if WantsConnection(s.wishes, node) then Tracked(tr, node, timestamp)
      else tr.(trackedIPs := tr.trackedIPs - {node})
    case Track(node, timestamp) =>
      if node in s.peers.connected then tr
      else if node in tr.trackedIPs then
        if TimestampOf(tr, node) >= timestamp then tr else Tracked(Untracked(tr, node), node, timestamp)
      else if WantsConnection(s.wishes, node) then Tracked(tr, node, timestamp)
      else tr
    case ManuallyTrack(node) =>
      if node in s.peers.connected || node in tr.trackedIPs then tr else Tracked(tr, node, 0)
    case DialerChecks(d) =>
      if WantsConnection(s.wishes, s.dialers[d].node) then tr else Untracked(tr, s.dialers[d].node)
    case StartClose => if s.closing then tr else AllStopped(tr)
    case _ => tr
  }

  lemma PeersEffect(s: State, a: Action)
    requires Enabled(s, a)
    ensures Next(s, a).peers == PeersAfter(s, a)
  {
  }

  lemma TrackingEffect(s: State, a: Action)
    requires Enabled(s, a)
    ensures Next(s, a).tracking == TrackingAfter(s, a)
  {
  }

  lemma WishesEffect(s: State, a: Action)
    requires Enabled(s, a)
    ensures Next(s, a).wishes.me == s.wishes.me && Next(s, a).wishes.mySubnets == s.wishes.mySubnets
  {
    if !a.ManuallyTrack? && !a.SetValidators? {
      assert Next(s, a).wishes == s.wishes;
    }
  }

  lemma Effects(s: State, a: Action, s': State)
    requires Enabled(s, a) && s' == Next(s, a)
    ensures s'.peers == PeersAfter(s, a) && s'.tracking == TrackingAfter(s, a)
    ensures s'.wishes.me == s.wishes.me && s'.wishes.mySubnets == s.wishes.mySubnets
  {
    PeersEffect(s, a);
    TrackingEffect(s, a);
    WishesEffect(s, a);
  }

  // ---------- The invariant: peers ----------

  predicate IsConnecting(stage: Stage) {
    stage.Handshaking? || stage.LeavingConnecting?
  }

  predicate IsConnected(stage: Stage) {
    stage.Announcing? || stage.Running? || stage.LeavingRouter? || stage.LeavingConnected?
  }

  // The two sets are apart and hold exactly the live peer objects, by what they are doing.
  ghost predicate PeersOk(ps: Peers) {
    && ps.connecting.Keys !! ps.connected.Keys
    && (forall n | n in ps.connecting ::
        ps.connecting[n] < |ps.all| && ps.all[ps.connecting[n]].node == n &&
            IsConnecting(ps.all[ps.connecting[n]].stage))
    && (forall n | n in ps.connected ::
        ps.connected[n] < |ps.all| && ps.all[ps.connected[n]].node == n && IsConnected(ps.all[ps.connected[n]].stage))
    && (forall p | 0 <= p < |ps.all| && IsConnecting(ps.all[p].stage) ::
        ps.all[p].node in ps.connecting && ps.connecting[ps.all[p].node] == p)
    && (forall p | 0 <= p < |ps.all| && IsConnected(ps.all[p].stage) ::
        ps.all[p].node in ps.connected && ps.connected[ps.all[p].node] == p)
  }

  lemma StartedOk(ps: Peers, node: NodeID)
    requires PeersOk(ps) && node !in ps.connecting && node !in ps.connected
    ensures PeersOk(Started(ps, node))
  {
    var ps' := Started(ps, node);
    assert forall p | 0 <= p < |ps.all| :: ps'.all[p] == ps.all[p];
  }

  lemma StageOk(ps: Peers, p: nat, stage: Stage)
    requires PeersOk(ps) && p < |ps.all|
    requires IsConnecting(ps.all[p].stage) == IsConnecting(stage) && IsConnected(ps.all[p].stage) == IsConnected(stage)
    ensures PeersOk(WithStage(ps, p, stage))
  {
  }

  lemma MovedOk(ps: Peers, p: nat, subnets: set<SubnetID>)
    requires PeersOk(ps) && p < |ps.all| && IsConnecting(ps.all[p].stage)
    ensures ps.all[p].node in ps.connecting && PeersOk(Moved(ps, p, subnets))
  {
    var node := ps.all[p].node;
    assert ps.connecting[node] == p;
  }

  lemma DroppedConnectingOk(ps: Peers, p: nat)
    requires PeersOk(ps) && p < |ps.all| && IsConnecting(ps.all[p].stage)
    ensures PeersOk(DroppedConnecting(ps, p))
  {
    var node := ps.all[p].node;
    assert ps.connecting[node] == p;
  }

  lemma DroppedConnectedOk(ps: Peers, p: nat)
    requires PeersOk(ps) && p < |ps.all| && IsConnected(ps.all[p].stage)
    ensures PeersOk(DroppedConnected(ps, p))
  {
    var node := ps.all[p].node;
    assert ps.connected[node] == p;
  }

  lemma PeersKept(s: State, a: Action)
    requires PeersOk(s.peers) && Enabled(s, a)
    ensures PeersOk(PeersAfter(s, a))
  {
    var ps := s.peers;
    match a {
      case FinishUpgrade(node) => if PeersAfter(s, a) != ps { StartedOk(ps, node); }
      case FinishHandshake(p, subnets) => MovedOk(ps, p, subnets);
      case NotifyConnected(p) => StageOk(ps, p, Running(ps.all[p].subnets));
      case NotifySubnet(p, subnet) => StageOk(ps, p, Running(ps.all[p].stage.left - {subnet}));
      case BeginDisconnect(p) => BegunOk(ps, p);
      case LeaveConnecting(p) => DroppedConnectingOk(ps, p);
      case NotifyDisconnected(p) => StageOk(ps, p, LeavingConnected);
      case LeaveConnected(p, _) => DroppedConnectedOk(ps, p);
      case _ =>
    }
  }

  lemma BegunOk(ps: Peers, p: nat)
    requires PeersOk(ps) && p < |ps.all| && (ps.all[p].stage.Handshaking? || ps.all[p].stage.Running?)
    ensures PeersOk(WithStage(ps, p, DisconnectStage(ps, ps.all[p].node)))
    ensures DisconnectStage(ps, ps.all[p].node) == if ps.all[p].stage.Running? then LeavingRouter else LeavingConnecting
  {
    var node := ps.all[p].node;
    assert if ps.all[p].stage.Running? then node in ps.connected else node in ps.connecting;
    StageOk(ps, p, DisconnectStage(ps, node));
  }

  // This node is never a peer of its own.
  ghost predicate NotMe(s: State) {
    s.wishes.me !in s.peers.connecting && s.wishes.me !in s.peers.connected && s.wishes.me !in s.upgrading
  }

  lemma NotMeKept(s: State, a: Action, s': State)
    requires NotMe(s) && Enabled(s, a) && s' == Next(s, a)
    ensures NotMe(s')
  {
    PeersEffect(s, a);
    WishesEffect(s, a);
    if a.CheckUpgrade? {
      assert s'.peers == s.peers;
    } else if a.FinishUpgrade? {
      assert s'.upgrading <= s.upgrading && a.node != s.wishes.me;
    } else {
      assert s'.upgrading == s.upgrading;
      NoNewPeers(s, a);
    }
  }

  ghost function LiveNodes(ps: Peers): set<NodeID> {
    ps.connecting.Keys + ps.connected.Keys
  }

  // Only an upgrade adds a node.
  lemma NoNewPeers(s: State, a: Action)
    requires Enabled(s, a) && !a.FinishUpgrade?
    ensures LiveNodes(PeersAfter(s, a)) <= LiveNodes(s.peers)
  {
  }

  // ---------- The invariant: trackers ----------

  // The trackers of tracked nodes are exactly the ones not stopped.
  ghost predicate TrackersOk(tr: Tracking) {
    && (forall n | n in tr.trackedIPs ::
        tr.trackedIPs[n] < |tr.all| && tr.all[tr.trackedIPs[n]].node == n && !tr.all[tr.trackedIPs[n]].stopped)
    && (forall t | 0 <= t < |tr.all| && !tr.all[t].stopped ::
        tr.all[t].node in tr.trackedIPs && tr.trackedIPs[tr.all[t].node] == t)
  }

  lemma UntrackedOk(tr: Tracking, node: NodeID)
    requires TrackersOk(tr)
    ensures TrackersOk(Untracked(tr, node)) && Untracked(tr, node).trackedIPs == tr.trackedIPs - {node}
  {
  }

  lemma TrackedOk(tr: Tracking, node: NodeID, timestamp: nat)
    requires TrackersOk(tr) && node !in tr.trackedIPs
    ensures TrackersOk(Tracked(tr, node, timestamp))
  {
    var tr' := Tracked(tr, node, timestamp);
    assert forall t | 0 <= t < |tr.all| :: tr'.all[t] == tr.all[t];
  }

  lemma AllStoppedOk(tr: Tracking)
    requires TrackersOk(tr)
    ensures TrackersOk(AllStopped(tr))
  {
  }

  // No tracked node is connected.
  ghost predicate TrackedApart(s: State) {
    s.tracking.trackedIPs.Keys !! s.peers.connected.Keys
  }

  lemma TrackersKept(s: State, a: Action)
    requires PeersOk(s.peers) && TrackersOk(s.tracking) && TrackedApart(s) && Enabled(s, a)
    ensures TrackersOk(TrackingAfter(s, a))
  {
    var tr := s.tracking;
    match a {
      case FinishHandshake(p, _) => UntrackedOk(tr, s.peers.all[p].node);
      case LeaveConnecting(p) => RetrackedOk(tr, s.peers.all[p].node, TimestampOf(tr, s.peers.all[p].node));
      case LeaveConnected(p, timestamp) => LeavingTrackersOk(s, p, timestamp);
      case Track(node, timestamp) => RetrackedOk(tr, node, timestamp);
      case ManuallyTrack(node) => if node !in tr.trackedIPs { TrackedOk(tr, node, 0); }
      case DialerChecks(d) => UntrackedOk(tr, s.dialers[d].node);
      case StartClose => AllStoppedOk(tr);
      case _ =>
    }
  }

  lemma RetrackedOk(tr: Tracking, node: NodeID, timestamp: nat)
    requires TrackersOk(tr)
    ensures TrackersOk(Untracked(tr, node)) && TrackersOk(Tracked(Untracked(tr, node), node, timestamp))
  {
    UntrackedOk(tr, node);
    TrackedOk(Untracked(tr, node), node, timestamp);
  }

  // A connected node has no entry that could be lost.
  lemma LeavingTrackersOk(s: State, p: nat, timestamp: nat)
    requires PeersOk(s.peers) && TrackersOk(s.tracking) && TrackedApart(s) && PeerAt(s.peers, p, LeavingConnected)
    ensures TrackersOk(TrackingAfter(s, LeaveConnected(p, timestamp)))
  {
    var node := s.peers.all[p].node;
    assert node in s.peers.connected && node !in s.tracking.trackedIPs;
    TrackedOk(s.tracking, node, timestamp);
    assert s.tracking.trackedIPs - {node} == s.tracking.trackedIPs;
  }

  // Which nodes a step may start to track, and which it may connect.
  lemma TrackedNodes(s: State, a: Action, node: NodeID)
    requires Enabled(s, a) && node in TrackingAfter(s, a).trackedIPs && node !in s.tracking.trackedIPs
    ensures || (a.LeaveConnected? && node == s.peers.all[a.peer].node)
            || ((a.Track? || a.ManuallyTrack?) && node == a.node && node !in s.peers.connected)
  {
  }

  lemma ConnectedNodes(s: State, a: Action, node: NodeID)
    requires Enabled(s, a) && node in PeersAfter(s, a).connected && node !in s.peers.connected
    ensures a.FinishHandshake? && node == s.peers.all[a.peer].node && node !in TrackingAfter(s, a).trackedIPs
  {
  }

  lemma TrackedApartKept(s: State, a: Action, s': State)
    requires PeersOk(s.peers) && TrackedApart(s) && Enabled(s, a)
    requires s'.peers == PeersAfter(s, a) && s'.tracking == TrackingAfter(s, a)
    ensures TrackedApart(s')
  {
    forall node | node in s'.tracking.trackedIPs
      ensures node !in s'.peers.connected
    {
      if node in s'.peers.connected && node !in s.peers.connected {
        ConnectedNodes(s, a, node);
      } else if node !in s.tracking.trackedIPs {
        TrackedNodes(s, a, node);
      }
    }
  }

  // ---------- The invariant: the router ----------

  // What the router was told about a node.
  function Told(log: seq<Notification>, node: NodeID): seq<Event> {
    if log == [] then []
    else Told(log[..|log| - 1], node) + if log[|log| - 1].node == node then [log[|log| - 1].event] else []
  }

  // A node is down, or up with the networks the router was told it is in.
  datatype Session = Down | Up(subnets: set<SubnetID>)

  // The sessions go: connected to the primary network, then to other subnets, each at most once, then
  // disconnected. Nothing else can be heard.
  function Heard(told: seq<Event>): Option<Session> {
    if told == [] then Some(Down)
    else
      match Heard(told[..|told| - 1])
      case None => None
      case Some(session) => HearNext(session, told[|told| - 1])
  }

  function HearNext(session: Session, event: Event): Option<Session> {
    match event
    case Disconnected => if session.Up? then Some(Down) else None
    case Connected(subnet) =>
      if session.Down? then if subnet == PRIMARY then Some(Up({PRIMARY})) else None
      else if subnet in session.subnets then None
      else Some(Up(session.subnets + {subnet}))
  }

  // Whether the node is on the primary network, as told.
  function OnPrimary(told: seq<Event>): seq<bool> {
    if told == [] then []
    else
      var last := told[|told| - 1];
      OnPrimary(told[..|told| - 1]) +
      if last == Disconnected then [false] else if last.subnet == PRIMARY then [true] else []
  }

  // Connected, disconnected, connected, ...
  ghost predicate Alternates(told: seq<bool>) {
    forall i | 0 <= i < |told| :: told[i] <==> i % 2 == 0
  }

  lemma {:induction false} HeardAlternates(told: seq<Event>)
    requires Heard(told).Some?
    ensures Alternates(OnPrimary(told)) && (|OnPrimary(told)| % 2 == 1 <==> Heard(told).value.Up?)
    ensures Heard(told).value.Up? ==> PRIMARY in Heard(told).value.subnets
  {
    if told != [] {
      HeardAlternates(told[..|told| - 1]);
    }
  }

  // What the router should have heard of a node: the primary network and all of the peer's subnets but
  // those it is about to be told.
  function SessionOf(ps: Peers, node: NodeID): Session {
    if node in ps.connected && ps.connected[node] < |ps.all| then PeerSession(ps.all[ps.connected[node]]) else Down
  }

  function PeerSession(peer: Peer): Session {
    match peer.stage
    case Running(left) => Up({PRIMARY} + (peer.subnets - left))
    case LeavingRouter => Up({PRIMARY} + peer.subnets)
    case _ => Down
  }

  // A peer's subnets are subnets of this node, and those left to tell are among them.
  ghost predicate SubnetsOk(ps: Peers, mySubnets: set<SubnetID>) {
    forall p | 0 <= p < |ps.all| ::
      ps.all[p].subnets <= mySubnets && (ps.all[p].stage.Running? ==> ps.all[p].stage.left <= ps.all[p].subnets)
  }

  lemma SubnetsKept(s: State, a: Action)
    requires PeersOk(s.peers) && SubnetsOk(s.peers, s.wishes.mySubnets) && Enabled(s, a)
    ensures SubnetsOk(PeersAfter(s, a), s.wishes.mySubnets)
  {
  }

  ghost predicate RouterOk(log: seq<Notification>, ps: Peers) {
    forall node {:trigger Told(log, node)} :: Heard(Told(log, node)) == Some(SessionOf(ps, node))
  }

  lemma ToldMore(log: seq<Notification>, e: Notification, node: NodeID)
    ensures Told(log + [e], node) == Told(log, node) + if e.node == node then [e.event] else []
  {
    assert (log + [e])[..|log|] == log;
  }

  lemma HeardMore(told: seq<Event>, session: Session, event: Event)
    requires Heard(told) == Some(session)
    ensures Heard(told + [event]) == HearNext(session, event)
  {
    assert (told + [event])[..|told|] == told;
  }

  // A step of one connected peer object changes its node's session only.
  lemma StageSession(ps: Peers, p: nat, stage: Stage, node: NodeID)
    requires PeersOk(ps) && p < |ps.all| && IsConnected(ps.all[p].stage)
    ensures SessionOf(ps, ps.all[p].node) == PeerSession(ps.all[p])
    ensures SessionOf(WithStage(ps, p, stage), node) ==
            if node == ps.all[p].node then PeerSession(ps.all[p].(stage := stage)) else SessionOf(ps, node)
  {
    assert ps.connected[ps.all[p].node] == p;
  }

  // A step without a notification leaves every session as it is.
  lemma QuietStep(s: State, a: Action, node: NodeID)
    requires PeersOk(s.peers) && Enabled(s, a) && !Notifies(a)
    ensures SessionOf(PeersAfter(s, a), node) == SessionOf(s.peers, node)
  {
    match a {
      case FinishHandshake(p, subnets) => MovedSession(s.peers, p, subnets, node);
      case BeginDisconnect(p) => BegunSession(s.peers, p, node);
      case LeaveConnecting(p) => DroppedConnectingSession(s.peers, p, node);
      case LeaveConnected(p, _) => DroppedConnectedSession(s.peers, p, node);
      case _ =>
    }
  }

  predicate Notifies(a: Action) {
    a.NotifyConnected? || a.NotifySubnet? || a.NotifyDisconnected?
  }

  lemma MovedSession(ps: Peers, p: nat, subnets: set<SubnetID>, node: NodeID)
    requires PeersOk(ps) && PeerAt(ps, p, Handshaking)
    ensures ps.all[p].node in ps.connecting && SessionOf(Moved(ps, p, subnets), node) == SessionOf(ps, node)
  {
    var n := ps.all[p].node;
    assert ps.connecting[n] == p && n !in ps.connected;
  }

  lemma BegunSession(ps: Peers, p: nat, node: NodeID)
    requires PeersOk(ps) && (PeerAt(ps, p, Handshaking) || PeerAt(ps, p, Running({})))
    ensures SessionOf(WithStage(ps, p, DisconnectStage(ps, ps.all[p].node)), node) == SessionOf(ps, node)
  {
    BegunOk(ps, p);
    if ps.all[p].stage.Running? {
      StageSession(ps, p, LeavingRouter, node);
      assert ps.all[p].subnets - {} == ps.all[p].subnets;
    }
  }

  lemma DroppedConnectingSession(ps: Peers, p: nat, node: NodeID)
    requires PeersOk(ps) && PeerAt(ps, p, LeavingConnecting)
    ensures SessionOf(DroppedConnecting(ps, p), node) == SessionOf(ps, node)
  {
    assert ps.connecting[ps.all[p].node] == p;
  }

  lemma DroppedConnectedSession(ps: Peers, p: nat, node: NodeID)
    requires PeersOk(ps) && PeerAt(ps, p, LeavingConnected)
    ensures SessionOf(DroppedConnected(ps, p), node) == SessionOf(ps, node)
  {
    StageSession(ps, p, Gone, node);
    assert ps.connected[ps.all[p].node] == p;
  }

  // A notification continues its node's session.
  lemma NotifiedOk(s: State, p: nat, stage: Stage, event: Event)
    requires PeersOk(s.peers) && RouterOk(s.router, s.peers) && p < |s.peers.all| && IsConnected(s.peers.all[p].stage)
    requires HearNext(PeerSession(s.peers.all[p]), event) == Some(PeerSession(s.peers.all[p].(stage := stage)))
    ensures var s' := Notified(s, p, stage, event); RouterOk(s'.router, s'.peers)
  {
    var s' := Notified(s, p, stage, event);
    var e := Notification(s.peers.all[p].node, event);
    forall node
      ensures Heard(Told(s'.router, node)) == Some(SessionOf(s'.peers, node))
    {
      StageSession(s.peers, p, stage, node);
      ToldMore(s.router, e, node);
      assert Heard(Told(s.router, node)) == Some(SessionOf(s.peers, node));
      if e.node == node {
        HeardMore(Told(s.router, node), SessionOf(s.peers, node), event);
      } else {
        assert Told(s'.router, node) == Told(s.router, node);
      }
    }
  }

  // What each notification says fits the peer that makes it.
  lemma NotificationFits(peer: Peer, mySubnets: set<SubnetID>)
    requires PRIMARY !in mySubnets && peer.subnets <= mySubnets
    ensures peer.stage.Announcing? ==>
              HearNext(PeerSession(peer), Connected(PRIMARY)) ==
                  Some(PeerSession(peer.(stage := Running(peer.subnets))))
    ensures peer.stage.LeavingRouter? ==>
              HearNext(PeerSession(peer), Disconnected) == Some(PeerSession(peer.(stage := LeavingConnected)))
  {
    assert {PRIMARY} + (peer.subnets - peer.subnets) == {PRIMARY};
  }

  lemma SubnetFits(peer: Peer, mySubnets: set<SubnetID>, subnet: SubnetID)
    requires PRIMARY !in mySubnets && peer.subnets <= mySubnets
    requires peer.stage.Running? && peer.stage.left <= peer.subnets && subnet in peer.stage.left
    ensures HearNext(PeerSession(peer), Connected(subnet)) ==
            Some(PeerSession(peer.(stage := Running(peer.stage.left - {subnet}))))
  {
    var left := peer.stage.left;
    assert subnet != PRIMARY && subnet !in peer.subnets - left;
    assert peer.subnets - (left - {subnet}) == peer.subnets - left + {subnet};
    assert {PRIMARY} + (peer.subnets - left + {subnet}) == {PRIMARY} + (peer.subnets - left) + {subnet};
  }

  lemma RouterKept(s: State, a: Action, s': State)
    requires PeersOk(s.peers) && RouterOk(s.router, s.peers) && Enabled(s, a) && s' == Next(s, a)
    requires PRIMARY !in s.wishes.mySubnets && SubnetsOk(s.peers, s.wishes.mySubnets)
    ensures RouterOk(s'.router, s'.peers)
  {
    if Notifies(a) {
      var peer := s.peers.all[a.peer];
      NotificationFits(peer, s.wishes.mySubnets);
      match a {
        case NotifyConnected(p) => NotifiedOk(s, p, Running(peer.subnets), Connected(PRIMARY));
        case NotifySubnet(p, subnet) =>
          SubnetFits(peer, s.wishes.mySubnets, subnet);
          NotifiedOk(s, p, Running(peer.stage.left - {subnet}), Connected(subnet));
        case NotifyDisconnected(p) => NotifiedOk(s, p, LeavingConnected, Disconnected);
      }
    } else {
      RouterQuiet(s, a, s');
    }
  }

  lemma RouterQuiet(s: State, a: Action, s': State)
    requires PeersOk(s.peers) && RouterOk(s.router, s.peers) && Enabled(s, a) && s' == Next(s, a) && !Notifies(a)
    ensures RouterOk(s'.router, s'.peers)
  {
    PeersEffect(s, a);
    assert s'.router == s.router;
    forall node
      ensures Heard(Told(s'.router, node)) == Some(SessionOf(s'.peers, node))
    {
      QuietStep(s, a, node);
    }
  }

  // ---------- All runs ----------

  ghost predicate Inv(s: State) {
    && PeersOk(s.peers) && NotMe(s) && TrackersOk(s.tracking) && TrackedApart(s) && RouterOk(s.router, s.peers)
    && PRIMARY !in s.wishes.mySubnets && SubnetsOk(s.peers, s.wishes.mySubnets)
  }

  lemma InvKept(s: State, a: Action, s': State)
    requires Inv(s) && Enabled(s, a) && s' == Next(s, a)
    ensures Inv(s') && s'.wishes.me == s.wishes.me
  {
    Effects(s, a, s');
    PeersKept(s, a);
    SubnetsKept(s, a);
    NotMeKept(s, a, s');
    TrackersKept(s, a);
    TrackedApartKept(s, a, s');
    RouterKept(s, a, s');
  }

  ghost predicate IsRun(s: State, actions: seq<Action>)
    decreases |actions|
  {
    actions == [] || (Enabled(s, actions[0]) && IsRun(Next(s, actions[0]), actions[1..]))
  }

  ghost function After(s: State, actions: seq<Action>): State
    requires IsRun(s, actions)
    decreases |actions|
  {
    if actions == [] then s else After(Next(s, actions[0]), actions[1..])
  }

  lemma {:induction false} InvAlongRun(s: State, actions: seq<Action>)
    requires Inv(s) && IsRun(s, actions)
    ensures Inv(After(s, actions)) && After(s, actions).wishes.me == s.wishes.me
    decreases |actions|
  {
    if actions != [] {
      InvKept(s, actions[0], Next(s, actions[0]));
      InvAlongRun(Next(s, actions[0]), actions[1..]);
    }
  }

  // `s` is reached by some run of the machine of node `me`.
  ghost predicate Reachable(me: NodeID, s: State) {
    exists mySubnets, requireValidator, validators, actions | PRIMARY !in mySubnets ::
      var s0 := Initial(me, mySubnets, requireValidator, validators);
      IsRun(s0, actions) && s == After(s0, actions)
  }

  lemma ReachableOk(me: NodeID, s: State)
    requires Reachable(me, s)
    ensures Inv(s) && s.wishes.me == me
  {
    var mySubnets, requireValidator, validators, actions :|
      PRIMARY !in mySubnets &&
      var s0 := Initial(me, mySubnets, requireValidator, validators);
      IsRun(s0, actions) && s == After(s0, actions);
    InvAlongRun(Initial(me, mySubnets, requireValidator, validators), actions);
  }

  // In every reachable state a node is not both connecting and connected, this node is neither, no
  // connected node is tracked, and every tracker outside trackedIPs has been stopped.
  lemma ConnectionSafety(me: NodeID, s: State, node: NodeID, t: nat)
    requires Reachable(me, s)
    ensures !(node in s.peers.connecting && node in s.peers.connected)
    ensures me !in s.peers.connecting && me !in s.peers.connected
    ensures node in s.peers.connected ==> node !in s.tracking.trackedIPs
    ensures t < |s.tracking.all| && t !in s.tracking.trackedIPs.Values ==> s.tracking.all[t].stopped
  {
    ReachableOk(me, s);
    if t < |s.tracking.all| && !s.tracking.all[t].stopped {
      var n := s.tracking.all[t].node;
      assert n in s.tracking.trackedIPs && s.tracking.trackedIPs[n] == t;
    }
  }

  // Of each node the router hears sessions: that it is connected to the primary network, to its subnets,
  // each once, and that it is disconnected. At any time it has heard what the node's peer has told so far,
  // and on the primary network it sees the node connect, disconnect, connect, and so on.
  lemma RouterAlternates(me: NodeID, s: State, node: NodeID)
    requires Reachable(me, s)
    ensures Heard(Told(s.router, node)) == Some(SessionOf(s.peers, node))
    ensures Alternates(OnPrimary(Told(s.router, node)))
  {
    ReachableOk(me, s);
    HeardAlternates(Told(s.router, node));
  }

  // A peer that finishes its handshake is always expected: Connected never takes its error branch.
  lemma ConnectedIsExpected(me: NodeID, s: State, p: nat)
    requires Reachable(me, s) && PeerAt(s.peers, p, Handshaking)
    ensures s.peers.all[p].node in s.peers.connecting && s.peers.connecting[s.peers.all[p].node] == p
  {
    ReachableOk(me, s);
  }

  lemma ClosedStep(s: State, a: Action)
    requires s.closing && Enabled(s, a)
    ensures Next(s, a).closing && |Next(s, a).peers.all| == |s.peers.all|
    ensures Next(s, a).peers.connecting.Keys <= s.peers.connecting.Keys
  {
    PeersEffect(s, a);
    ClosedPeers(s, a);
  }

  lemma ClosedPeers(s: State, a: Action)
    requires s.closing && Enabled(s, a)
    ensures |PeersAfter(s, a).all| == |s.peers.all|
    ensures PeersAfter(s, a).connecting.Keys <= s.peers.connecting.Keys
  {
  }

  // Once closing, no peer starts connecting, for the rest of the run.
  lemma {:induction false} NothingStartsAfterClose(s: State, actions: seq<Action>)
    requires s.closing && IsRun(s, actions)
    ensures var s' := After(s, actions);
            && s'.closing && |s'.peers.all| == |s.peers.all|
            && s'.peers.connecting.Keys <= s.peers.connecting.Keys
    decreases |actions|
  {
    if actions != [] {
      ClosedStep(s, actions[0]);
      NothingStartsAfterClose(Next(s, actions[0]), actions[1..]);
    }
  }

  lemma KeptTimestamp(tr: Tracking, other: NodeID, node: NodeID, timestamp: nat)
    requires TrackersOk(tr) && node in tr.trackedIPs && other != node
    ensures TimestampOf(Untracked(tr, other), node) == TimestampOf(tr, node)
    ensures TimestampOf(Tracked(tr, other, timestamp), node) == TimestampOf(tr, node)
    ensures TimestampOf(Tracked(Untracked(tr, other), other, timestamp), node) == TimestampOf(tr, node)
  {
  }

  lemma NewTimestamp(tr: Tracking, node: NodeID, timestamp: nat)
    ensures TimestampOf(Tracked(tr, node, timestamp), node) == timestamp
  {
  }

  // While a node stays tracked its address only gets more recent.
  lemma TimestampsGrow(s: State, a: Action, node: NodeID)
    requires Inv(s) && Enabled(s, a) && node in s.tracking.trackedIPs && node in Next(s, a).tracking.trackedIPs
    ensures TimestampOf(s.tracking, node) <= TimestampOf(Next(s, a).tracking, node)
  {
    TrackingEffect(s, a);
    TimestampKept(s, a, TrackingAfter(s, a), node);
  }

  lemma TimestampKept(s: State, a: Action, tr': Tracking, node: NodeID)
    requires PeersOk(s.peers) && TrackersOk(s.tracking) && TrackedApart(s) && Enabled(s, a) &&
             tr' == TrackingAfter(s, a)
    requires node in s.tracking.trackedIPs && node in tr'.trackedIPs
    ensures TimestampOf(s.tracking, node) <= TimestampOf(tr', node)
  {
    var tr := s.tracking;
    match a {
      case FinishHandshake(p, _) => if s.peers.all[p].node != node { KeptTimestamp(tr, s.peers.all[p].node, node, 0); }
      case LeaveConnecting(p) =>
        var n := s.peers.all[p].node;
        if n != node { KeptTimestamp(tr, n, node, TimestampOf(tr, n)); }
            else { NewTimestamp(Untracked(tr, n), n, TimestampOf(tr, n)); }
      case LeaveConnected(p, timestamp) =>
        var n := s.peers.all[p].node;
        assert n in s.peers.connected && n != node;
        KeptTimestamp(tr, n, node, timestamp);
        assert tr.(trackedIPs := tr.trackedIPs - {n}).trackedIPs[node] == tr.trackedIPs[node];
      case Track(n, timestamp) =>
        if n != node { KeptTimestamp(tr, n, node, timestamp); } else { NewTimestamp(Untracked(tr, n), n, timestamp); }
      case ManuallyTrack(n) => if n != node { KeptTimestamp(tr, n, node, 0); }
      case DialerChecks(d) => if s.dialers[d].node != node { KeptTimestamp(tr, s.dialers[d].node, node, 0); }
      case _ =>
    }
  }
}
