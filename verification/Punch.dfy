/** UDP hole punching: a symmetric CHECK, CHECK_ACK, CONFIRM, CONFIRM_ACK handshake between two peers. */
module Punch {
  import opened Words
  import opened Options

  const MAX_INBOUND: nat := 128

  type Tid = u32
  type Endpoint = nat

  datatype Kind = Check | CheckAck | Confirm | ConfirmAck

  datatype Selected = Selected(tid: Tid, remote: Endpoint)

  /** One side of a punch: the transactions it started, those it heard of and from where, and what is settled. */
  datatype Peer = Peer(out: set<Tid>, inb: map<Tid, Endpoint>, selected: Option<Selected>, localConfirmed: bool,
                       peerConfirmed: bool)

  datatype Message = Message(kind: Kind, tid: Tid)

  datatype Reaction = Reaction(peer: Peer, reply: Option<Message>)

  // ---- One side -------------------------------------------------------------------------------

  function Fresh(): Peer {
    Peer({}, map[], None, false, false)
  }

  /** A CHECK of a new transaction. */
  function Probed(p: Peer, tid: Tid): Reaction {
    Reaction(p.(out := p.out + {tid}), Some(Message(Check, tid)))
  }

  /** A CONFIRM repeated while it is unanswered. */
  function Repeated(p: Peer): Reaction {
    if p.selected.Some? && !p.localConfirmed then Reaction(p, Some(Message(Confirm, p.selected.value.tid)))
    else Reaction(p, None)
  }

  /** What a packet of this session from an endpoint does. */
  function Heard(p: Peer, m: Message, source: Endpoint): Reaction {
    match m.kind
    case Check =>
      if m.tid in p.out then Reaction(p, None)
      else if m.tid in p.inb then
        if p.inb[m.tid] != source then Reaction(p, None) else Reaction(p, Some(Message(CheckAck, m.tid)))
      else if |p.inb| >= MAX_INBOUND then Reaction(p, None)
      else Reaction(p.(inb := p.inb[m.tid := source]), Some(Message(CheckAck, m.tid)))
    case CheckAck =>
      if p.selected.Some? || m.tid !in p.out then Reaction(p, None)
      else Reaction(p.(selected := Some(Selected(m.tid, source))), Some(Message(Confirm, m.tid)))
    case Confirm =>
      if m.tid !in p.inb || p.inb[m.tid] != source then Reaction(p, None)
      else Reaction(p.(peerConfirmed := true), Some(Message(ConfirmAck, m.tid)))
    case ConfirmAck =>
      if p.selected != Some(Selected(m.tid, source)) then Reaction(p, None)
      else Reaction(p.(localConfirmed := true), None)
  }

  /** Both flags set: after the linger the side returns its selected endpoint. */
  predicate Succeeds(p: Peer) {
    p.localConfirmed && p.peerConfirmed
  }

  // ---- Two sides ------------------------------------------------------------------------------

  datatype Side = A | B

  /** sent holds every message ever sent, with its sender. */
  datatype World = World(a: Peer, b: Peer, sent: set<(Side, Message)>)

  datatype Action =
    | Probe(at: Side, tid: Tid)
    | Repeat(at: Side)
    | Deliver(to: Side, from: Side, m: Message, source: Endpoint)

  function At(w: World, side: Side): Peer {
    if side == A then w.a else w.b
  }

  function Other(side: Side): Side {
    if side == A then B else A
  }

  function Put(w: World, side: Side, r: Reaction): World {
    var sent := if r.reply.Some? then w.sent + {(side, r.reply.value)} else w.sent;
    if side == A then World(r.peer, w.b, sent) else World(w.a, r.peer, sent)
  }

  /** Messages arrive any number of times, from any endpoint, at the peer or reflected to their sender. */
  predicate Enabled(w: World, action: Action, ids: Side -> set<Tid>) {
    match action
    case Probe(at, tid) => tid in ids(at)
    case Repeat(_) => true
    case Deliver(_, from, m, _) => (from, m) in w.sent
  }

  function Next(w: World, action: Action): World {
    match action
    case Probe(at, tid) => Put(w, at, Probed(At(w, at), tid))
    case Repeat(at) => Put(w, at, Repeated(At(w, at)))
    case Deliver(to, _, m, source) => Put(w, to, Heard(At(w, to), m, source))
  }

  predicate Run(w: World, actions: seq<Action>, ids: Side -> set<Tid>)
    decreases |actions|
  {
    actions == [] || (Enabled(w, actions[0], ids) && Run(Next(w, actions[0]), actions[1..], ids))
  }

  function Reached(w: World, actions: seq<Action>): World
    decreases |actions|
  {
    if actions == [] then w else Reached(Next(w, actions[0]), actions[1..])
  }

  // ---- The invariant --------------------------------------------------------------------------

  /** What a message in the network says about its sender. */
  predicate True(p: Peer, m: Message) {
    match m.kind
    case Check => m.tid in p.out
    case CheckAck => m.tid in p.inb
    case Confirm => p.selected.Some? && p.selected.value.tid == m.tid
    case ConfirmAck => m.tid in p.inb && p.peerConfirmed
  }

  /** One side, against its peer and the network. */
  predicate Sound(w: World, side: Side, ids: Side -> set<Tid>) {
    var p, q := At(w, side), At(w, Other(side));
    && p.out <= ids(side)
    && p.inb.Keys <= q.out
    && (p.selected.Some? ==> p.selected.value.tid in p.out && p.selected.value.tid in q.inb)
    && (p.localConfirmed ==> p.selected.Some? && (Other(side), Message(ConfirmAck, p.selected.value.tid)) in w.sent)
    && (p.peerConfirmed ==> q.selected.Some? && (Other(side), Message(Confirm, q.selected.value.tid)) in w.sent)
  }

  predicate Holds(w: World, ids: Side -> set<Tid>) {
    && Sound(w, A, ids) && Sound(w, B, ids)
    && forall x :: x in w.sent ==> True(At(w, x.0), x.1)
  }

  /** A side's knowledge only grows, so what was said stays true. */
  predicate Grows(p: Peer, p': Peer) {
    && p.out <= p'.out && p.inb.Keys <= p'.inb.Keys
    && (p.selected.Some? ==> p'.selected == p.selected)
    && (p.peerConfirmed ==> p'.peerConfirmed)
  }

  lemma HeardGrows(p: Peer, m: Message, source: Endpoint)
    ensures Grows(p, Heard(p, m, source).peer)
  {
  }

  lemma PutHolds(w: World, side: Side, r: Reaction, ids: Side -> set<Tid>)
    requires Holds(w, ids) && Grows(At(w, side), r.peer) && (r.reply.Some? ==> True(r.peer, r.reply.value))
    requires Sound(Put(w, side, r), A, ids) && Sound(Put(w, side, r), B, ids)
    ensures Holds(Put(w, side, r), ids)
  {
    hide Sound;
    var w' := Put(w, side, r);
    forall x | x in w'.sent ensures True(At(w', x.0), x.1) {
      if x in w.sent { assert True(At(w, x.0), x.1); }
    }
  }

  /** The peer's side of the books survives anything this side does. */
  lemma PeerSound(w: World, side: Side, r: Reaction, ids: Side -> set<Tid>)
    requires Sound(w, Other(side), ids) && Grows(At(w, side), r.peer)
    ensures Sound(Put(w, side, r), Other(side), ids)
  {
  }

  lemma DeliverHolds(w: World, to: Side, from: Side, m: Message, source: Endpoint, ids: Side -> set<Tid>)
    requires Holds(w, ids) && ids(A) !! ids(B) && (from, m) in w.sent
    ensures Holds(Next(w, Deliver(to, from, m, source)), ids)
  {
    var p, q := At(w, to), At(w, Other(to));
    var r := Heard(p, m, source);
    HeardGrows(p, m, source);
    PeerSound(w, to, r, ids);
    assert True(At(w, from), m);
    assert from == to || from == Other(to);
    if from == to { HeardOwn(w, to, m, source, ids); } else { HeardPeer(w, to, m, source, ids); }
    PutHolds(w, to, r, ids);
  }

  /** A reflected message changes nothing. */
  lemma HeardOwn(w: World, to: Side, m: Message, source: Endpoint, ids: Side -> set<Tid>)
    requires Holds(w, ids) && ids(A) !! ids(B) && (to, m) in w.sent
    ensures Heard(At(w, to), m, source) == Reaction(At(w, to), None)
    ensures Sound(Put(w, to, Heard(At(w, to), m, source)), to, ids)
  {
    assert True(At(w, to), m);
  }

  lemma HeardPeer(w: World, to: Side, m: Message, source: Endpoint, ids: Side -> set<Tid>)
    requires Holds(w, ids) && ids(A) !! ids(B) && (Other(to), m) in w.sent
    ensures var r := Heard(At(w, to), m, source);
            (r.reply.Some? ==> True(r.peer, r.reply.value)) && Sound(Put(w, to, r), to, ids)
  {
    hide Sound, Heard, Put;
    assert True(At(w, Other(to)), m);
    assert Sound(w, to, ids) && Sound(w, Other(to), ids);
    match m.kind
    case Check => HeardCheck(w, to, m, source, ids);
    case CheckAck => HeardCheckAck(w, to, m, source, ids);
    case Confirm => HeardConfirm(w, to, m, source, ids);
    case ConfirmAck => HeardConfirmAck(w, to, m, source, ids);
  }

  lemma HeardCheck(w: World, to: Side, m: Message, source: Endpoint, ids: Side -> set<Tid>)
    requires Sound(w, to, ids) && Sound(w, Other(to), ids) && ids(A) !! ids(B) && True(At(w, Other(to)), m)
             && m.kind == Check
    requires (Other(to), m) in w.sent
    ensures var r := Heard(At(w, to), m, source);
            (r.reply.Some? ==> True(r.peer, r.reply.value)) && Sound(Put(w, to, r), to, ids)
  {
  }

  lemma HeardCheckAck(w: World, to: Side, m: Message, source: Endpoint, ids: Side -> set<Tid>)
    requires Sound(w, to, ids) && Sound(w, Other(to), ids) && ids(A) !! ids(B) && True(At(w, Other(to)), m)
             && m.kind == CheckAck
    requires (Other(to), m) in w.sent
    ensures var r := Heard(At(w, to), m, source);
            (r.reply.Some? ==> True(r.peer, r.reply.value)) && Sound(Put(w, to, r), to, ids)
  {
  }

  lemma HeardConfirm(w: World, to: Side, m: Message, source: Endpoint, ids: Side -> set<Tid>)
    requires Sound(w, to, ids) && Sound(w, Other(to), ids) && ids(A) !! ids(B) && True(At(w, Other(to)), m)
             && m.kind == Confirm
    requires (Other(to), m) in w.sent
    ensures var r := Heard(At(w, to), m, source);
            (r.reply.Some? ==> True(r.peer, r.reply.value)) && Sound(Put(w, to, r), to, ids)
  {
  }

  lemma HeardConfirmAck(w: World, to: Side, m: Message, source: Endpoint, ids: Side -> set<Tid>)
    requires Sound(w, to, ids) && Sound(w, Other(to), ids) && ids(A) !! ids(B) && True(At(w, Other(to)), m)
             && m.kind == ConfirmAck
    requires (Other(to), m) in w.sent
    ensures var r := Heard(At(w, to), m, source);
            (r.reply.Some? ==> True(r.peer, r.reply.value)) && Sound(Put(w, to, r), to, ids)
  {
  }

  lemma StepHolds(w: World, action: Action, ids: Side -> set<Tid>)
    requires Holds(w, ids) && ids(A) !! ids(B) && Enabled(w, action, ids)
    ensures Holds(Next(w, action), ids)
  {
    match action
    case Probe(at, tid) =>
      var r := Probed(At(w, at), tid);
      PeerSound(w, at, r, ids);
      PutHolds(w, at, r, ids);
    case Repeat(at) =>
      var r := Repeated(At(w, at));
      PeerSound(w, at, r, ids);
      PutHolds(w, at, r, ids);
    case Deliver(to, from, m, source) => DeliverHolds(w, to, from, m, source, ids);
  }

  lemma {:induction false} RunHolds(w: World, actions: seq<Action>, ids: Side -> set<Tid>)
    requires Holds(w, ids) && ids(A) !! ids(B) && Run(w, actions, ids)
    ensures Holds(Reached(w, actions), ids)
    decreases |actions|
  {
    hide Holds, Next, Enabled;
    if actions != [] {
      StepHolds(w, actions[0], ids);
      RunHolds(Next(w, actions[0]), actions[1..], ids);
    }
  }

  /**
   * Agreement: whenever one side succeeds, its peer has recorded and acknowledged that side's selected transaction, and
   * has itself selected a path and sent CONFIRM for it.
   */
  lemma Agreement(actions: seq<Action>, ids: Side -> set<Tid>, side: Side)
    requires ids(A) !! ids(B)
    requires Run(World(Fresh(), Fresh(), {}), actions, ids)
    ensures var w := Reached(World(Fresh(), Fresh(), {}), actions);
            var p, q := At(w, side), At(w, Other(side));
            Succeeds(p) ==>
              && p.selected.Some? && p.selected.value.tid in q.inb
              && (Other(side), Message(ConfirmAck, p.selected.value.tid)) in w.sent
              && q.selected.Some? && q.selected.value.tid in p.inb
              && (Other(side), Message(Confirm, q.selected.value.tid)) in w.sent
              && q.peerConfirmed
  {
    var start := World(Fresh(), Fresh(), {});
    assert Holds(start, ids);
    RunHolds(start, actions, ids);
    var w := Reached(start, actions);
    assert Sound(w, side, ids) && Sound(w, Other(side), ids);
  }

  // ---- The loop's state as an object ----------------------------------------------------------

  class Puncher {
    var out: set<Tid>
    var inb: map<Tid, Endpoint>
    var selected: Option<Selected>
    var localConfirmed: bool
    var peerConfirmed: bool
    var nextTid: Tid

    ghost function View(): Peer
      reads this
    {
      Peer(out, inb, selected, localConfirmed, peerConfirmed)
    }

    constructor (first: Tid)
      ensures View() == Fresh() && nextTid == first
    {
      out, inb, selected, localConfirmed, peerConfirmed, nextTid := {}, map[], None, false, false, first;
    }

    /** One burst: a CHECK with its own transaction for each candidate. */
    method Burst(candidates: nat) returns (sent: seq<Message>)
      modifies this`out, this`nextTid
      ensures nextTid == Wrap32(old(nextTid) + candidates) && |sent| == candidates
      ensures forall i :: 0 <= i < candidates ==>
                            sent[i] == Message(Check, Wrap32(old(nextTid) + i)) && sent[i].tid in out
      ensures forall t :: t in out <==> t in old(out) || exists i :: 0 <= i < |sent| && sent[i].tid == t
    {
      hide Wrap32;
      sent := [];
      WrapNear(nextTid);
      for n := 0 to candidates
        invariant |sent| == n && nextTid == Wrap32(old(nextTid) + n)
        invariant forall i :: 0 <= i < n ==> sent[i] == Message(Check, Wrap32(old(nextTid) + i)) && sent[i].tid in out
        invariant forall t :: t in out <==> t in old(out) || exists i :: 0 <= i < |sent| && sent[i].tid == t
      {
        ghost var before := sent;
        var tid := nextTid;
        AddToWrap(old(nextTid) + n, 1);
        nextTid := Wrap32(nextTid + 1);
        out := out + {tid};
        sent := sent + [Message(Check, tid)];
        assert sent[n].tid == tid;
        assert forall i :: 0 <= i < n ==> sent[i] == before[i];
      }
    }

    method Receive(m: Message, source: Endpoint) returns (reply: Option<Message>)
      modifies this`inb, this`selected, this`localConfirmed, this`peerConfirmed
      ensures View() == Heard(old(View()), m, source).peer && reply == Heard(old(View()), m, source).reply
    {
      reply := None;
      match m.kind
      case Check =>
        if m.tid in out { return; }
        if m.tid in inb && inb[m.tid] != source { return; }
        if m.tid !in inb {
          if |inb| >= MAX_INBOUND { return; }
          inb := inb[m.tid := source];
        }
        reply := Some(Message(CheckAck, m.tid));
      case CheckAck =>
        if selected.Some? { return; }
        if m.tid !in out { return; }
        selected := Some(Selected(m.tid, source));
        reply := Some(Message(Confirm, m.tid));
      case Confirm =>
        if m.tid !in inb || inb[m.tid] != source { return; }
        reply := Some(Message(ConfirmAck, m.tid));
        peerConfirmed := true;
      case ConfirmAck =>
        if selected.None? || m.tid != selected.value.tid || selected.value.remote != source { return; }
        localConfirmed := true;
    }
  }
}
