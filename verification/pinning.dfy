/** Which identity a connection speaks for: src/aries/transport/peer.py lines 142-186 and 263-398, with a device
    keypair. Each step runs from one await to the next; between steps anything else may happen. */
module Pinning {
  import opened Wrappers
  import opened Bits
  import Did

  type Key = seq<Byte>

  /** Which static key backs which DID. */
  type Matching = (string, Key) -> bool

  /** The placeholders are backed by no key. */
  ghost predicate Sensible(matches: Matching) { forall key :: !matches("", key) && !matches("unknown", key) }

  /** did_matches_static, from the conversion of an Ed25519 key to X25519, None where that raises. */
  function StaticMatching(convert: Key -> Option<Key>): Matching {
    (did: string, key: Key) => Did.DidToPublicKey(did).Ok? && convert(Did.DidToPublicKey(did).value) == Some(key)
  }

  lemma StaticMatchingIsSensible(convert: Key -> Option<Key>)
    ensures Sensible(StaticMatching(convert))
    ensures forall did, key :: StaticMatching(convert)(did, key) <==>
              Did.DidToPublicKey(did).Ok? && convert(Did.DidToPublicKey(did).value) == Some(key)
  {
    assert |Did.PREFIX| == 9 > |"unknown"|;
    assert Did.DidToPublicKey("").Err? && Did.DidToPublicKey("unknown").Err?;
  }

  predicate Pinned(did: string) { did != "" && did != "unknown" }

  /** Where a connection's coroutine stands: in the handshake, waiting for a message, in a handler, closing, gone. */
  datatype Phase = Opening | Receiving | Handling | Closing | Gone

  /** One connection. info names its PeerInfo object, which the caller of connect_to_peer may use elsewhere too. */
  datatype Connection = Connection(info: nat, outbound: bool, remote: Option<Key>, phase: Phase) {
    /** Receiving messages or handling one. */
    predicate Open() { phase.Receiving? || phase.Handling? }

    /** Open, or about to be. */
    predicate Live() { phase.Opening? || Open() }
  }

  /** A message passed to its handler. */
  datatype Dispatch = Dispatch(connection: nat, sender: string)

  /** infos holds the device_did of each PeerInfo object, table is _connections. */
  datatype State = State(connections: map<nat, Connection>, infos: map<nat, string>, table: map<string, nat>, dispatched: set<Dispatch>)

  const START := State(map[], map[], map[], {})

  datatype Step =
    | Connect(c: nat, info: nat, did: string)          // connect_to_peer opens the socket and starts the handshake
    | Accept(c: nat, info: nat)                        // _handle_connection, with a PeerInfo of its own
    | HandshakeFails(c: nat)                           // or is cancelled
    | HandshakeSucceeds(c: nat, key: Key)
    | Receive(c: nat, sender: string, handled: bool)   // handled: there is a handler for the message's type
    | HandlerReturns(c: nat)
    | LoopEnds(c: nat)                                 // end of stream, error, or cancellation
    | Teardown(c: nat)
    | Abandon(c: nat)                                  // cancelled while closing
    | Clear                                            // stop
    | Forget(did: string)                              // broadcast could not send

  predicate InPhase(s: State, c: nat, p: Phase) { c in s.connections && s.connections[c].phase == p }

  ghost predicate Enabled(s: State, step: Step) {
    match step
    case Connect(c, info, did) => c !in s.connections && (info in s.infos ==> s.infos[info] == did)
    case Accept(c, info) => c !in s.connections && info !in s.infos
    case HandshakeFails(c) => InPhase(s, c, Opening)
    case HandshakeSucceeds(c, _) => InPhase(s, c, Opening) && s.connections[c].info in s.infos
    case Receive(c, _, _) => InPhase(s, c, Receiving) && s.connections[c].info in s.infos && s.connections[c].remote.Some?
    case HandlerReturns(c) => InPhase(s, c, Handling)
    case LoopEnds(c) => InPhase(s, c, Receiving) || InPhase(s, c, Handling)
    case Teardown(c) => InPhase(s, c, Closing) && s.connections[c].info in s.infos
    case Abandon(c) => InPhase(s, c, Closing)
    case Clear => true
    case Forget(_) => true
  }

  function Moved(s: State, c: nat, p: Phase): State
    requires c in s.connections
  {
    s.(connections := s.connections[c := s.connections[c].(phase := p)])
  }

  /** The rest of connect_to_peer or _handle_connection once the handshake has succeeded. */
  function Opened(s: State, matches: Matching, c: nat, key: Key): State
    requires c in s.connections && s.connections[c].info in s.infos
  {
    var conn := s.connections[c].(remote := Some(key));
    var did := s.infos[conn.info];
    var t := s.(connections := s.connections[c := conn]);
    if !conn.outbound then Moved(t, c, Receiving)
    else if Pinned(did) && !matches(did, key) then Moved(t, c, Gone)
    else if did == "" then Moved(t, c, Receiving)
    else Moved(t, c, Receiving).(table := s.table[did := c])
  }

  /** The message reaches its handler, or is ignored for want of one. */
  function Passed(s: State, c: nat, sender: string, handled: bool): State
    requires c in s.connections
  {
    if handled then Moved(s, c, Handling).(dispatched := s.dispatched + {Dispatch(c, sender)}) else s
  }

  /** One round of _receive_loop. */
  function Received(s: State, matches: Matching, c: nat, sender: string, handled: bool): State
    requires c in s.connections && s.connections[c].info in s.infos && s.connections[c].remote.Some?
  {
    var conn := s.connections[c];
    var did := s.infos[conn.info];
    if sender == "" then Passed(s, c, sender, handled)
    else if !Pinned(did) then
      if !matches(sender, conn.remote.value) then Moved(s, c, Closing)
      else Passed(s.(infos := s.infos[conn.info := sender], table := s.table[sender := c]), c, sender, handled)
    else if sender != did then Moved(s, c, Closing)
    else Passed(s, c, sender, handled)
  }

  /** The finally block: the entry goes only if it is still this connection's. */
  function TornDown(s: State, c: nat): State
    requires c in s.connections && s.connections[c].info in s.infos
  {
    var did := s.infos[s.connections[c].info];
    var t := Moved(s, c, Gone);
    if did != "" && did in s.table && s.table[did] == c then t.(table := s.table - {did}) else t
  }

  function After(s: State, matches: Matching, step: Step): State
    requires Enabled(s, step)
  {
    match step
    case Connect(c, info, did) =>
      s.(connections := s.connections[c := Connection(info, true, None, Opening)], infos := s.infos[info := did])
    case Accept(c, info) =>
      s.(connections := s.connections[c := Connection(info, false, None, Opening)], infos := s.infos[info := "unknown"])
    case HandshakeFails(c) => Moved(s, c, Gone)
    case HandshakeSucceeds(c, key) => Opened(s, matches, c, key)
    case Receive(c, sender, handled) => Received(s, matches, c, sender, handled)
    case HandlerReturns(c) => Moved(s, c, Receiving)
    case LoopEnds(c) => Moved(s, c, Closing)
    case Teardown(c) => TornDown(s, c)
    case Abandon(c) => Moved(s, c, Gone)
    case Clear => s.(table := map[])
    case Forget(did) => s.(table := s.table - {did})
  }

  /** What a caller of connect_to_peer must see to: a PeerInfo without a device DID belongs to no other live connection. */
  ghost predicate Exclusive(s: State, step: Step) {
    step.Connect? && !Pinned(step.did) ==>
      forall b :: b in s.connections && s.connections[b].info == step.info ==> !s.connections[b].Live()
  }

  // ---------------------------------------------------------------- the invariant

  /** c's PeerInfo names did, and c's handshake key belongs to did. */
  ghost predicate SpeaksFor(s: State, matches: Matching, c: nat, did: string) {
    c in s.connections && s.connections[c].info in s.infos && s.infos[s.connections[c].info] == did && Pinned(did) &&
    s.connections[c].remote.Some? && matches(did, s.connections[c].remote.value)
  }

  ghost predicate ConnectionOk(s: State, matches: Matching, c: nat)
    requires c in s.connections
  {
    var conn := s.connections[c];
    conn.info in s.infos && (conn.phase.Opening? ==> conn.remote.None? && (Pinned(s.infos[conn.info]) ==> conn.outbound)) &&
    (conn.Open() ==> conn.remote.Some? && (Pinned(s.infos[conn.info]) ==> SpeaksFor(s, matches, c, s.infos[conn.info])))
  }

  ghost predicate Share(s: State, b: nat, c: nat) {
    b in s.connections && c in s.connections && b != c && s.connections[b].info == s.connections[c].info &&
    s.connections[b].Live() && s.connections[c].Live()
  }

  ghost predicate ConnectionsOk(s: State, matches: Matching) { forall c :: c in s.connections ==> ConnectionOk(s, matches, c) }

  /** Live connections share a PeerInfo only once it names a device. */
  ghost predicate SharingOk(s: State) {
    forall b, c :: Share(s, b, c) && s.connections[b].info in s.infos ==> Pinned(s.infos[s.connections[b].info])
  }

  /** Every entry but "unknown" names a connection that speaks for its DID. */
  ghost predicate TableOk(s: State, matches: Matching) {
    forall did :: did in s.table && did != "unknown" ==> SpeaksFor(s, matches, s.table[did], did)
  }

  /** Every dispatched message with a sender came over a connection that speaks for that sender. */
  ghost predicate DispatchedOk(s: State, matches: Matching) {
    forall m :: m in s.dispatched && m.sender != "" ==> SpeaksFor(s, matches, m.connection, m.sender)
  }

  ghost predicate Inv(s: State, matches: Matching) {
    Sensible(matches) && ConnectionsOk(s, matches) && SharingOk(s) && TableOk(s, matches) && DispatchedOk(s, matches)
  }

  // ---------------------------------------------------------------- one step

  lemma MovedKeeps(s: State, matches: Matching, c: nat, p: Phase)
    requires Inv(s, matches) && c in s.connections && !p.Opening?
    requires s.connections[c].Open() || (s.connections[c].phase.Closing? && p.Gone?)
    ensures Inv(Moved(s, c, p), matches)
  {
    var t := Moved(s, c, p);
    assert forall b, did :: SpeaksFor(s, matches, b, did) <==> SpeaksFor(t, matches, b, did);
    forall b | b in t.connections ensures ConnectionOk(t, matches, b) { assert ConnectionOk(s, matches, b); }
    hide SpeaksFor;
    forall b, d | Share(t, b, d) && t.connections[b].info in t.infos ensures Pinned(t.infos[t.connections[b].info]) {
      assert Share(s, b, d);
    }
  }

  lemma OpeningFails(s: State, matches: Matching, c: nat)
    requires Inv(s, matches) && InPhase(s, c, Opening)
    ensures Inv(Moved(s, c, Gone), matches)
  {
    var t := Moved(s, c, Gone);
    assert forall b, did :: SpeaksFor(s, matches, b, did) <==> SpeaksFor(t, matches, b, did);
    forall b | b in t.connections ensures ConnectionOk(t, matches, b) { assert ConnectionOk(s, matches, b); }
    hide SpeaksFor;
    forall b, d | Share(t, b, d) && t.connections[b].info in t.infos ensures Pinned(t.infos[t.connections[b].info]) {
      assert Share(s, b, d);
    }
  }

  /** A new connection on a PeerInfo that is new, or names a device, or has no live connection. */
  lemma StartKeeps(s: State, matches: Matching, c: nat, info: nat, did: string, outbound: bool)
    requires Inv(s, matches) && c !in s.connections && (info in s.infos ==> s.infos[info] == did) && (Pinned(did) ==> outbound)
    requires Pinned(did) || forall b :: b in s.connections && s.connections[b].info == info ==> !s.connections[b].Live()
    ensures Inv(s.(connections := s.connections[c := Connection(info, outbound, None, Opening)], infos := s.infos[info := did]), matches)
  {
    var t := s.(connections := s.connections[c := Connection(info, outbound, None, Opening)], infos := s.infos[info := did]);
    assert forall b, d :: SpeaksFor(s, matches, b, d) ==> SpeaksFor(t, matches, b, d);
    forall b | b in t.connections ensures ConnectionOk(t, matches, b) {
      if b != c { assert ConnectionOk(s, matches, b); }
    }
    hide SpeaksFor;
    forall b, d | Share(t, b, d) && t.connections[b].info in t.infos ensures Pinned(t.infos[t.connections[b].info]) {
      if b != c && d != c {
        assert Share(s, b, d) && ConnectionOk(s, matches, b);
      } else {
        var other := if b == c then d else b;
        assert ConnectionOk(s, matches, other);
      }
    }
  }

  /** Losing table entries loses nothing else. */
  lemma SmallerTable(s: State, matches: Matching, table: map<string, nat>)
    requires Inv(s, matches) && forall did :: did in table ==> did in s.table && table[did] == s.table[did]
    ensures Inv(s.(table := table), matches)
  {
    SameVoices(s, matches, table);
    hide SpeaksFor;
    var t := s.(table := table);
    forall b, d | Share(t, b, d) && t.connections[b].info in t.infos ensures Pinned(t.infos[t.connections[b].info]) {
      assert Share(s, b, d);
    }
  }

  lemma SameVoices(s: State, matches: Matching, table: map<string, nat>)
    ensures forall c, did :: SpeaksFor(s, matches, c, did) <==> SpeaksFor(s.(table := table), matches, c, did)
    ensures forall c :: c in s.connections ==> (ConnectionOk(s, matches, c) <==> ConnectionOk(s.(table := table), matches, c))
  {
  }

  /** A new entry must name a connection that speaks for it; "unknown" may name any. */
  lemma NewEntry(s: State, matches: Matching, did: string, c: nat)
    requires Inv(s, matches) && (did == "unknown" || SpeaksFor(s, matches, c, did))
    ensures Inv(s.(table := s.table[did := c]), matches)
  {
    SameVoices(s, matches, s.table[did := c]);
    hide SpeaksFor;
    var t := s.(table := s.table[did := c]);
    forall b, d | Share(t, b, d) && t.connections[b].info in t.infos ensures Pinned(t.infos[t.connections[b].info]) {
      assert Share(s, b, d);
    }
  }

  /** The handshake key is recorded, and the connection opens unless the key contradicts the advertised DID. */
  lemma KeyKeeps(s: State, matches: Matching, c: nat, key: Key)
    requires Inv(s, matches) && InPhase(s, c, Opening) && s.connections[c].info in s.infos
    requires !Pinned(s.infos[s.connections[c].info]) || matches(s.infos[s.connections[c].info], key)
    ensures var conn := s.connections[c].(remote := Some(key), phase := Receiving);
            var t := s.(connections := s.connections[c := conn]);
            Inv(t, matches) && (Pinned(s.infos[conn.info]) ==> SpeaksFor(t, matches, c, s.infos[conn.info]))
  {
    var conn := s.connections[c].(remote := Some(key), phase := Receiving);
    var t := s.(connections := s.connections[c := conn]);
    assert ConnectionOk(s, matches, c);
    assert forall b, d :: SpeaksFor(s, matches, b, d) ==> SpeaksFor(t, matches, b, d);
    forall b | b in t.connections ensures ConnectionOk(t, matches, b) { assert ConnectionOk(s, matches, b); }
    assert Pinned(s.infos[conn.info]) ==> SpeaksFor(t, matches, c, s.infos[conn.info]);
    hide SpeaksFor;
    forall b, d | Share(t, b, d) && t.connections[b].info in t.infos ensures Pinned(t.infos[t.connections[b].info]) {
      assert Share(s, b, d);
    }
  }

  lemma RejectedKeeps(s: State, matches: Matching, c: nat, key: Key)
    requires Inv(s, matches) && InPhase(s, c, Opening)
    ensures Inv(s.(connections := s.connections[c := s.connections[c].(remote := Some(key), phase := Gone)]), matches)
  {
    var t := s.(connections := s.connections[c := s.connections[c].(remote := Some(key), phase := Gone)]);
    assert ConnectionOk(s, matches, c);
    assert forall b, d :: SpeaksFor(s, matches, b, d) ==> SpeaksFor(t, matches, b, d);
    forall b | b in t.connections ensures ConnectionOk(t, matches, b) { assert ConnectionOk(s, matches, b); }
    hide SpeaksFor;
    forall b, d | Share(t, b, d) && t.connections[b].info in t.infos ensures Pinned(t.infos[t.connections[b].info]) {
      assert Share(s, b, d);
    }
  }

  lemma OpenedKeeps(s: State, matches: Matching, c: nat, key: Key)
    requires Inv(s, matches) && InPhase(s, c, Opening) && s.connections[c].info in s.infos
    ensures Inv(Opened(s, matches, c, key), matches)
  {
    assert ConnectionOk(s, matches, c);
    hide SpeaksFor, Inv;
    var conn := s.connections[c];
    var did := s.infos[conn.info];
    var u := s.(connections := s.connections[c := conn.(remote := Some(key))]);
    if conn.outbound && Pinned(did) && !matches(did, key) {
      assert Moved(u, c, Gone) == s.(connections := s.connections[c := conn.(remote := Some(key), phase := Gone)]);
      RejectedKeeps(s, matches, c, key);
    } else {
      KeyKeeps(s, matches, c, key);
      var t := s.(connections := s.connections[c := conn.(remote := Some(key), phase := Receiving)]);
      assert Moved(u, c, Receiving) == t;
      if conn.outbound && did != "" { NewEntry(t, matches, did, c); }
    }
  }

  /** A first message pins the PeerInfo that no other live connection uses. */
  lemma PinKeeps(s: State, matches: Matching, c: nat, sender: string)
    requires Inv(s, matches) && InPhase(s, c, Receiving) && s.connections[c].info in s.infos && s.connections[c].remote.Some?
    requires !Pinned(s.infos[s.connections[c].info]) && matches(sender, s.connections[c].remote.value)
    ensures var t := s.(infos := s.infos[s.connections[c].info := sender]);
            Inv(t, matches) && SpeaksFor(t, matches, c, sender)
  {
    assert Pinned(sender);
    var info := s.connections[c].info;
    var t := s.(infos := s.infos[info := sender]);
    assert forall b, d :: SpeaksFor(s, matches, b, d) ==> SpeaksFor(t, matches, b, d);
    assert SpeaksFor(t, matches, c, sender);
    forall b | b in t.connections ensures ConnectionOk(t, matches, b) {
      assert ConnectionOk(s, matches, b);
      if b != c && s.connections[b].info == info { assert Share(s, b, c) || !s.connections[b].Live(); }
    }
    hide SpeaksFor;
    forall b, d | Share(t, b, d) && t.connections[b].info in t.infos ensures Pinned(t.infos[t.connections[b].info]) {
      assert Share(s, b, d);
    }
  }

  lemma PassedKeeps(s: State, matches: Matching, c: nat, sender: string, handled: bool)
    requires Inv(s, matches) && InPhase(s, c, Receiving) && (sender != "" ==> SpeaksFor(s, matches, c, sender))
    ensures Inv(Passed(s, c, sender, handled), matches)
  {
    if handled {
      MovedKeeps(s, matches, c, Handling);
      var t := Moved(s, c, Handling);
      var u := t.(dispatched := s.dispatched + {Dispatch(c, sender)});
      assert forall b, did :: SpeaksFor(t, matches, b, did) <==> SpeaksFor(u, matches, b, did);
      assert sender != "" ==> SpeaksFor(u, matches, c, sender);
      forall b | b in u.connections ensures ConnectionOk(u, matches, b) { assert ConnectionOk(t, matches, b); }
      hide SpeaksFor;
      forall b, d | Share(u, b, d) && u.connections[b].info in u.infos ensures Pinned(u.infos[u.connections[b].info]) {
        assert Share(t, b, d);
      }
    }
  }

  lemma ReceivedKeeps(s: State, matches: Matching, c: nat, sender: string, handled: bool)
    requires Inv(s, matches) && Enabled(s, Receive(c, sender, handled))
    ensures Inv(Received(s, matches, c, sender, handled), matches)
  {
    var conn := s.connections[c];
    var did := s.infos[conn.info];
    assert ConnectionOk(s, matches, c);
    hide SpeaksFor, Inv;
    if sender == "" {
      PassedKeeps(s, matches, c, sender, handled);
    } else if !Pinned(did) {
      if matches(sender, conn.remote.value) {
        PinKeeps(s, matches, c, sender);
        var t := s.(infos := s.infos[conn.info := sender]);
        NewEntry(t, matches, sender, c);
        SameVoices(t, matches, t.table[sender := c]);
        PassedKeeps(t.(table := t.table[sender := c]), matches, c, sender, handled);
      } else {
        MovedKeeps(s, matches, c, Closing);
      }
    } else if sender != did {
      MovedKeeps(s, matches, c, Closing);
    } else {
      PassedKeeps(s, matches, c, sender, handled);
    }
  }

  lemma NextKeeps(s: State, matches: Matching, step: Step)
    requires Inv(s, matches) && Enabled(s, step) && Exclusive(s, step)
    ensures Inv(After(s, matches, step), matches)
  {
    match step
    case Connect(c, info, did) => StartKeeps(s, matches, c, info, did, true);
    case Accept(c, info) =>
      forall b | b in s.connections ensures s.connections[b].info != info { assert ConnectionOk(s, matches, b); }
      StartKeeps(s, matches, c, info, "unknown", false);
    case HandshakeFails(c) => OpeningFails(s, matches, c);
    case HandshakeSucceeds(c, key) => OpenedKeeps(s, matches, c, key);
    case Receive(c, sender, handled) => ReceivedKeeps(s, matches, c, sender, handled);
    case HandlerReturns(c) => MovedKeeps(s, matches, c, Receiving);
    case LoopEnds(c) => MovedKeeps(s, matches, c, Closing);
    case Teardown(c) =>
      MovedKeeps(s, matches, c, Gone);
      SmallerTable(Moved(s, c, Gone), matches, TornDown(s, c).table);
    case Abandon(c) => MovedKeeps(s, matches, c, Gone);
    case Clear => SmallerTable(s, matches, map[]);
    case Forget(did) => SmallerTable(s, matches, s.table - {did});
  }

  // ---------------------------------------------------------------- whole runs

  ghost predicate Run(matches: Matching, states: seq<State>, steps: seq<Step>) {
    Sensible(matches) && |states| == |steps| + 1 && states[0] == START &&
    forall n: nat :: n < |steps| ==> Leads(matches, states, steps, n)
  }

  ghost predicate Leads(matches: Matching, states: seq<State>, steps: seq<Step>, n: nat)
    requires |states| == |steps| + 1 && n < |steps|
  {
    Enabled(states[n], steps[n]) && Exclusive(states[n], steps[n]) && states[n + 1] == After(states[n], matches, steps[n])
  }

  /** In every interleaving, every entry but "unknown" maps a DID to a connection that speaks for it, and every
      dispatched message with a sender came over a connection that speaks for the sender. */
  lemma {:induction false} RunInv(matches: Matching, states: seq<State>, steps: seq<Step>, n: nat)
    requires Run(matches, states, steps) && n < |states|
    ensures Inv(states[n], matches)
  {
    if n > 0 {
      RunInv(matches, states, steps, n - 1);
      assert Leads(matches, states, steps, n - 1);
      NextKeeps(states[n - 1], matches, steps[n - 1]);
    }
  }

  /** One step never takes away or changes what a connection speaks for. */
  lemma VoiceKept(s: State, matches: Matching, step: Step, c: nat, did: string)
    requires Inv(s, matches) && Enabled(s, step) && SpeaksFor(s, matches, c, did)
    ensures SpeaksFor(After(s, matches, step), matches, c, did)
  {
    assert ConnectionOk(s, matches, c);
    hide TableOk, DispatchedOk, SharingOk, ConnectionsOk;
  }

  lemma OneVoice(s: State, matches: Matching, c: nat)
    ensures forall d, e :: SpeaksFor(s, matches, c, d) && SpeaksFor(s, matches, c, e) ==> d == e
  {
  }

  /** Once pinned, a connection speaks for the same DID for the rest of the run. */
  lemma {:induction false} PinnedForLife(matches: Matching, states: seq<State>, steps: seq<Step>, n: nat, m: nat, c: nat, did: string)
    requires Run(matches, states, steps) && n <= m < |states| && SpeaksFor(states[n], matches, c, did)
    ensures SpeaksFor(states[m], matches, c, did)
    ensures forall other :: SpeaksFor(states[m], matches, c, other) ==> other == did
  {
    hide Inv, After, Enabled, Exclusive;
    OneVoice(states[m], matches, c);
    if n < m {
      hide SpeaksFor;
      PinnedForLife(matches, states, steps, n, m - 1, c, did);
      RunInv(matches, states, steps, m - 1);
      assert Leads(matches, states, steps, m - 1);
      VoiceKept(states[m - 1], matches, steps[m - 1], c, did);
    }
  }

  /** An entry changes hands only to a connection that speaks for the same DID, and disappears only when its own
      connection is torn down, or by stop or broadcast: tearing down an older connection leaves it alone. */
  lemma EntryLost(s: State, matches: Matching, step: Step, did: string)
    requires Inv(s, matches) && Enabled(s, step) && Exclusive(s, step) && did in s.table && Pinned(did)
    ensures var t := After(s, matches, step);
            (did in t.table && t.table[did] != s.table[did] ==>
              (step.Receive? || step.HandshakeSucceeds?) && t.table[did] == step.c && SpeaksFor(t, matches, step.c, did)) &&
            (did !in t.table ==>
              step.Clear? || step == Forget(did) || (step == Teardown(s.table[did]) && SpeaksFor(s, matches, s.table[did], did)))
  {
    hide SpeaksFor, ConnectionsOk, SharingOk, DispatchedOk;
    NextKeeps(s, matches, step);
    assert SpeaksFor(s, matches, s.table[did], did);
  }

  // ---------------------------------------------------------------- every open connection can be found

  /** A first message whose sender the key backs pins the sender, makes the connection the table's entry for it, and
      reaches its handler if there is one; one that the key does not back closes the connection and changes no more. */
  lemma FirstMessageDecides(s: State, matches: Matching, c: nat, sender: string, handled: bool)
    requires Enabled(s, Receive(c, sender, handled)) && sender != ""
    requires s.infos[s.connections[c].info] == "" || s.infos[s.connections[c].info] == "unknown"
    ensures var t, info := After(s, matches, Receive(c, sender, handled)), s.connections[c].info;
            if matches(sender, s.connections[c].remote.value)
            then t.infos == s.infos[info := sender] && t.table == s.table[sender := c] &&
                 t.dispatched == s.dispatched + (if handled then {Dispatch(c, sender)} else {}) &&
                 t.connections[c].phase == if handled then Handling else Receiving
            else t.infos == s.infos && t.table == s.table && t.dispatched == s.dispatched && t.connections[c].phase == Closing
  {
  }

  /** A later message is dispatched exactly under the pinned DID or none; another DID closes the connection. */
  lemma LaterMessageDecides(s: State, matches: Matching, c: nat, sender: string, handled: bool)
    requires Enabled(s, Receive(c, sender, handled))
    requires sender == "" || (s.infos[s.connections[c].info] != "" && s.infos[s.connections[c].info] != "unknown")
    ensures var t := After(s, matches, Receive(c, sender, handled));
            t.infos == s.infos && t.table == s.table &&
            if sender == "" || sender == s.infos[s.connections[c].info]
            then t.dispatched == s.dispatched + (if handled then {Dispatch(c, sender)} else {}) &&
                 t.connections[c].phase == if handled then Handling else Receiving
            else t.dispatched == s.dispatched && t.connections[c].phase == Closing
  {
  }

  /** A successful handshake makes an outbound connection the entry for its advertised DID, unless the key contradicts
      it; an inbound one waits for its first message. */
  lemma HandshakeDecides(s: State, matches: Matching, c: nat, key: Key)
    requires Enabled(s, HandshakeSucceeds(c, key))
    ensures var t, conn := After(s, matches, HandshakeSucceeds(c, key)), s.connections[c];
            var did := s.infos[conn.info];
            var contradicted := conn.outbound && did != "" && did != "unknown" && !matches(did, key);
            t.connections[c].remote == Some(key) && t.connections[c].phase == (if contradicted then Gone else Receiving) &&
            t.table == if conn.outbound && did != "" && !contradicted then s.table[did := c] else s.table
  {
  }

  /** A message on another connection never makes an open one speak for a DID. */
  lemma OtherMessagesGiveNoVoice(s: State, matches: Matching, c: nat, did: string)
    requires Inv(s, matches) && c in s.connections
    ensures s.connections[c].Open() && !SpeaksFor(s, matches, c, did) ==>
              forall b, sender, handled :: b != c && Enabled(s, Receive(b, sender, handled)) ==>
                !SpeaksFor(After(s, matches, Receive(b, sender, handled)), matches, c, did)
  {
    if s.connections[c].Open() && !SpeaksFor(s, matches, c, did) {
      assert ConnectionOk(s, matches, c);
      forall b, sender, handled | b != c && Enabled(s, Receive(b, sender, handled))
        ensures !SpeaksFor(After(s, matches, Receive(b, sender, handled)), matches, c, did)
      {
        assert s.connections[b].info == s.connections[c].info ==> Share(s, b, c);
        hide TableOk, DispatchedOk, ConnectionsOk;
      }
    }
  }

  /** Tearing a connection down removes its own entry and no other; stop removes all. */
  lemma TeardownDecides(s: State, matches: Matching, c: nat)
    requires Enabled(s, Teardown(c))
    ensures var t, did := After(s, matches, Teardown(c)), s.infos[s.connections[c].info];
            t.connections[c].phase == Gone && t.infos == s.infos &&
            t.table == if did != "" && did in s.table && s.table[did] == c then s.table - {did} else s.table
    ensures After(s, matches, Clear).table == map[]
  {
  }

  /** A connection that comes to speak for a DID becomes the entry for it in the same step. */
  lemma NewVoiceIsEntered(s: State, matches: Matching, step: Step, c: nat, did: string)
    requires Inv(s, matches) && Enabled(s, step)
    requires !(c in s.connections && s.connections[c].Open() && SpeaksFor(s, matches, c, did))
    requires var t := After(s, matches, step); c in t.connections && t.connections[c].Open() && SpeaksFor(t, matches, c, did)
    ensures did in After(s, matches, step).table && After(s, matches, step).table[did] == c
  {
    assert c in s.connections && ConnectionOk(s, matches, c);
    OtherMessagesGiveNoVoice(s, matches, c, did);
    hide Inv;
    if step.HandshakeSucceeds? {
      HandshakeDecides(s, matches, step.c, step.key);
    } else if step.Receive? {
      assert step.c == c;
    }
  }

  /** The entry of c for did went in step i: another connection took it, or stop or broadcast dropped it. */
  ghost predicate TakenAway(matches: Matching, states: seq<State>, steps: seq<Step>, i: nat, c: nat, did: string)
    requires |states| == |steps| + 1 && i < |steps|
  {
    did in states[i].table && states[i].table[did] == c &&
    (steps[i].Clear? || steps[i] == Forget(did) ||
     (did in states[i + 1].table && states[i + 1].table[did] != c && SpeaksFor(states[i + 1], matches, states[i + 1].table[did], did)))
  }

  /** In every run an open connection that speaks for a DID is the table's entry for it, unless its entry was taken by
      another connection that speaks for the DID, or dropped by stop or broadcast. */
  lemma {:induction false} OpenIsEntered(matches: Matching, states: seq<State>, steps: seq<Step>, n: nat, c: nat, did: string)
    requires Run(matches, states, steps) && n < |states|
    requires c in states[n].connections && states[n].connections[c].Open() && SpeaksFor(states[n], matches, c, did)
    ensures (did in states[n].table && states[n].table[did] == c) || exists i: nat :: i < n && TakenAway(matches, states, steps, i, c, did)
  {
    if n > 0 {
      var s, step := states[n - 1], steps[n - 1];
      RunInv(matches, states, steps, n - 1);
      assert Leads(matches, states, steps, n - 1);
      hide Inv, After, Enabled, Exclusive, SpeaksFor;
      if c in s.connections && s.connections[c].Open() && SpeaksFor(s, matches, c, did) {
        OpenIsEntered(matches, states, steps, n - 1, c, did);
        if did in s.table && s.table[did] == c && !(did in states[n].table && states[n].table[did] == c) {
          EntryTakenAway(s, matches, step, c, did);
          assert TakenAway(matches, states, steps, n - 1, c, did);
        }
      } else {
        NewVoiceIsEntered(s, matches, step, c, did);
      }
    }
  }

  lemma EntryTakenAway(s: State, matches: Matching, step: Step, c: nat, did: string)
    requires Inv(s, matches) && Enabled(s, step) && Exclusive(s, step) && did in s.table && s.table[did] == c && SpeaksFor(s, matches, c, did)
    requires var t := After(s, matches, step); c in t.connections && t.connections[c].Open()
    ensures var t := After(s, matches, step);
            !(did in t.table && t.table[did] == c) ==>
              step.Clear? || step == Forget(did) || (did in t.table && t.table[did] != c && SpeaksFor(t, matches, t.table[did], did))
  {
    EntryLost(s, matches, step, did);
    hide Inv, Exclusive;
  }

  // ---------------------------------------------------------------- the caller's condition is exact

  /** The steps lead from s to t, and each keeps to the caller's condition. */
  ghost predicate Continues(matches: Matching, s: State, steps: seq<Step>, t: State)
    decreases |steps|
  {
    if steps == [] then t == s
    else Enabled(s, steps[0]) && Exclusive(s, steps[0]) && Continues(matches, After(s, matches, steps[0]), steps[1..], t)
  }

  lemma {:induction false} ContinuationKeeps(s: State, matches: Matching, steps: seq<Step>, t: State)
    requires Inv(s, matches) && Continues(matches, s, steps, t)
    ensures Inv(t, matches)
    decreases |steps|
  {
    hide Inv, After, Enabled, Exclusive;
    if steps != [] {
      NextKeeps(s, matches, steps[0]);
      ContinuationKeeps(After(s, matches, steps[0]), matches, steps[1..], t);
    }
  }

  lemma {:induction false} ContinuationConcat(s: State, matches: Matching, first: seq<Step>, t: State, more: seq<Step>, u: State)
    requires Continues(matches, s, first, t) && Continues(matches, t, more, u)
    ensures Continues(matches, s, first + more, u)
    decreases |first|
  {
    hide After, Enabled, Exclusive;
    if first == [] {
      assert first + more == more;
    } else {
      ContinuationConcat(After(s, matches, first[0]), matches, first[1..], t, more, u);
      assert (first + more)[1..] == first[1..] + more;
    }
  }

  lemma OneStep(s: State, matches: Matching, step: Step)
    requires Enabled(s, step) && Exclusive(s, step)
    ensures Continues(matches, s, [step], After(s, matches, step))
  {
  }

  /** A live connection on a PeerInfo without a DID can come to wait for messages, and nothing else changes. */
  lemma Readied(s: State, matches: Matching, b: nat, key: Key) returns (steps: seq<Step>, t: State)
    requires b in s.connections && s.connections[b].Live() && s.connections[b].info in s.infos
    requires !Pinned(s.infos[s.connections[b].info]) && (s.connections[b].Open() ==> s.connections[b].remote.Some?)
    ensures Continues(matches, s, steps, t) && InPhase(t, b, Receiving) && t.connections[b].remote.Some?
    ensures s.connections[b].phase.Opening? ==> t.connections[b].remote == Some(key)
    ensures t.infos == s.infos && t.connections[b].info == s.connections[b].info
    ensures t.connections.Keys == s.connections.Keys && forall d :: d in s.connections && d != b ==> t.connections[d] == s.connections[d]
  {
    steps, t := [], s;
    if s.connections[b].phase.Opening? {
      steps, t := [HandshakeSucceeds(b, key)], After(s, matches, HandshakeSucceeds(b, key));
      OneStep(s, matches, steps[0]);
    } else if s.connections[b].phase.Handling? {
      steps, t := [HandlerReturns(b)], After(s, matches, HandlerReturns(b));
      OneStep(s, matches, steps[0]);
    }
  }

  /** Two connections on one PeerInfo without a DID, of which one can be pinned to a DID and the other's key does not
      back it: the other's next message under that DID is dispatched all the same. */
  lemma PassesForOther(s: State, matches: Matching, b: nat, c: nat, did: string) returns (steps: seq<Step>, t: State)
    requires Sensible(matches) && InPhase(s, b, Receiving) && InPhase(s, c, Receiving) && Share(s, b, c)
    requires s.connections[b].info in s.infos && !Pinned(s.infos[s.connections[b].info])
    requires s.connections[b].remote.Some? && s.connections[c].remote.Some?
    requires matches(did, s.connections[b].remote.value) && !matches(did, s.connections[c].remote.value)
    ensures Continues(matches, s, steps, t) && Dispatch(c, did) in t.dispatched && !SpeaksFor(t, matches, c, did)
    ensures !DispatchedOk(t, matches)
  {
    assert Pinned(did);
    var first, second := Receive(b, did, false), Receive(c, did, true);
    var u := After(s, matches, first);
    t := After(u, matches, second);
    OneStep(s, matches, first);
    OneStep(u, matches, second);
    ContinuationConcat(s, matches, [first], u, [second], t);
    steps := [first] + [second];
    assert Dispatch(c, did) in t.dispatched;
  }

  /** A connect that violates the condition can go wrong: some continuation, itself within the condition, dispatches
      a message under a DID that the connection's key does not back. */
  lemma ExclusiveNeeded(s: State, matches: Matching, step: Step, did: string, good: Key, bad: Key)
    returns (steps: seq<Step>, t: State)
    requires Inv(s, matches) && Enabled(s, step) && !Exclusive(s, step)
    requires matches(did, good) && !matches(did, bad)
    ensures Continues(matches, After(s, matches, step), steps, t) && !DispatchedOk(t, matches)
  {
    var b :| b in s.connections && s.connections[b].info == step.info && s.connections[b].Live();
    assert ConnectionOk(s, matches, b);
    var c, s0 := step.c, After(s, matches, step);
    var first, s1 := Readied(s0, matches, b, bad);
    var key := if matches(did, s1.connections[b].remote.value) then bad else good;
    var second, s2 := Readied(s1, matches, c, key);
    assert Share(s2, b, c);
    var third: seq<Step>;
    if key == bad {
      third, t := PassesForOther(s2, matches, b, c, did);
    } else {
      third, t := PassesForOther(s2, matches, c, b, did);
    }
    ContinuationConcat(s0, matches, first, s1, second, s2);
    ContinuationConcat(s0, matches, first + second, s2, third, t);
    steps := first + second + third;
  }

  /** Every continuation within the condition dispatches only what its connections may say. */
  ghost predicate Safe(matches: Matching, s: State) {
    forall steps, t :: Continues(matches, s, steps, t) ==> DispatchedOk(t, matches)
  }

  lemma Unsafe(matches: Matching, s: State, steps: seq<Step>, t: State)
    requires Continues(matches, s, steps, t) && !DispatchedOk(t, matches)
    ensures !Safe(matches, s)
  {
    hide DispatchedOk;
  }

  /** The condition is exact, given some DID with a key that backs it and one that does not: a step meets it if and
      only if every continuation is safe. */
  lemma ExclusiveExactly(s: State, matches: Matching, step: Step, did: string, good: Key, bad: Key)
    requires Inv(s, matches) && Enabled(s, step) && matches(did, good) && !matches(did, bad)
    ensures Exclusive(s, step) <==> Safe(matches, After(s, matches, step))
  {
    hide After, Enabled, Exclusive, DispatchedOk, ConnectionsOk, SharingOk, TableOk, Continues;
    if Exclusive(s, step) {
      NextKeeps(s, matches, step);
      forall steps, t | Continues(matches, After(s, matches, step), steps, t) ensures DispatchedOk(t, matches) {
        ContinuationKeeps(After(s, matches, step), matches, steps, t);
      }
    } else {
      var steps, t := ExclusiveNeeded(s, matches, step, did, good, bad);
      Unsafe(matches, After(s, matches, step), steps, t);
    }
  }

  /** The failing case is reachable: two connects with one PeerInfo that names no device. */
  lemma SharedInfoBreaks(matches: Matching, did: string, good: Key, bad: Key) returns (steps: seq<Step>, t: State)
    requires Sensible(matches) && matches(did, good) && !matches(did, bad)
    ensures var s := After(START, matches, Connect(0, 0, "unknown"));
            Exclusive(START, Connect(0, 0, "unknown")) && Enabled(s, Connect(1, 0, "unknown")) &&
            !Exclusive(s, Connect(1, 0, "unknown")) &&
            Continues(matches, After(s, matches, Connect(1, 0, "unknown")), steps, t) && !DispatchedOk(t, matches)
  {
    var first, second := Connect(0, 0, "unknown"), Connect(1, 0, "unknown");
    var s := After(START, matches, first);
    NextKeeps(START, matches, first);
    assert s.connections[0].Live();
    steps, t := ExclusiveNeeded(s, matches, second, did, good, bad);
  }

  // ---------------------------------------------------------------- the transport server

  class TransportServer {
    var connections: map<nat, Connection>
    var infos: map<nat, string>
    var table: map<string, nat>
    ghost var dispatched: set<Dispatch>
    const matches: Matching

    ghost function Now(): State
      reads this
    {
      State(connections, infos, table, dispatched)
    }

    constructor (matches: Matching)
      ensures Now() == START && this.matches == matches
    {
      connections, infos, table, dispatched := map[], map[], map[], {};
      this.matches := matches;
    }

    /** verify_claimed_did, after a handshake */
    predicate VerifyClaimedDid(c: nat, did: string)
      requires c in connections && connections[c].remote.Some?
      reads this
    {
      matches(did, connections[c].remote.value)
    }

    /** connect_to_peer and _handle_connection after a successful handshake; false where ConnectionError is raised. */
    method HandshakeSucceeded(c: nat, key: Key) returns (ok: bool)
      requires Enabled(Now(), HandshakeSucceeds(c, key))
      modifies this
      ensures Now() == After(old(Now()), matches, HandshakeSucceeds(c, key))
      ensures ok <==> !(old(connections[c].outbound) && Pinned(old(infos[connections[c].info])) &&
                        !matches(old(infos[connections[c].info]), key))
      ensures table == if ok && old(connections[c].outbound) && old(infos[connections[c].info]) != ""
                       then old(table)[old(infos[connections[c].info]) := c] else old(table)
    {
      connections := connections[c := connections[c].(remote := Some(key))];
      var did := infos[connections[c].info];
      if connections[c].outbound {
        if did != "" && did != "unknown" && !VerifyClaimedDid(c, did) {
          connections := connections[c := connections[c].(phase := Gone)];
          return false;
        }
        if did != "" { table := table[did := c]; }
      }
      connections := connections[c := connections[c].(phase := Receiving)];
      ok := true;
    }

    /** One round of _receive_loop, up to the handler. */
    method ReceiveMessage(c: nat, sender: string, handled: bool)
      requires Enabled(Now(), Receive(c, sender, handled))
      modifies this
      ensures Now() == After(old(Now()), matches, Receive(c, sender, handled))
      ensures sender != "" && (old(infos[connections[c].info]) == "" || old(infos[connections[c].info]) == "unknown") &&
              matches(sender, old(connections[c]).remote.value) ==>
                sender in table && table[sender] == c && infos[old(connections[c].info)] == sender
    {
      var info := connections[c].info;
      if sender != "" {
        if infos[info] == "" || infos[info] == "unknown" {
          if !VerifyClaimedDid(c, sender) {
            connections := connections[c := connections[c].(phase := Closing)];
            return;
          }
          infos := infos[info := sender];
          table := table[sender := c];
        } else if sender != infos[info] {
          connections := connections[c := connections[c].(phase := Closing)];
          return;
        }
      }
      if handled {
        connections := connections[c := connections[c].(phase := Handling)];
        dispatched := dispatched + {Dispatch(c, sender)};
      }
    }

    /** The finally block of _receive_loop; lost is the DID that the disconnect callbacks are told. */
    method TearDown(c: nat) returns (lost: Option<string>)
      requires Enabled(Now(), Teardown(c))
      modifies this
      ensures Now() == After(old(Now()), matches, Teardown(c))
      ensures lost.Some? <==> old(infos[connections[c].info]) in old(table) &&
                              old(infos[connections[c].info]) != "" && old(table)[old(infos[connections[c].info])] == c
      ensures lost.Some? ==> lost.value == old(infos[connections[c].info]) && lost.value !in table
    {
      connections := connections[c := connections[c].(phase := Gone)];
      var did := infos[connections[c].info];
      if did != "" && did in table && table[did] == c {
        table := table - {did};
        return Some(did);
      }
      lost := None;
    }
  }
}
