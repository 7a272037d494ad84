/**
 The reference-counted transport of zenbedded_transport/src/zenoh_transport.c.

 zenoh-pico is abstract: opening a session or declaring an entity may succeed or fail, which is a
 parameter of each call, and a successful declaration yields an entity number never used before.
 `Model` is the whole state as a value; the class `ZenohTransport.Service`
 runs the code against it.
 */
module Transport {
  import opened Bytes

  const EINVAL: int := 22

  /** A publisher or subscriber pool entry. Tier 1 also holds a liveliness token, when declaring
      one succeeded; its result is not looked at. */
  datatype Slot = Slot(inUse: bool, entity: nat, token: Option<nat>, sequenceNumber: nat, callback: nat)

  datatype Put = Put(entity: nat, sequenceNumber: nat, payload: seq<byte>)

  /** `live` are the entities declared and not yet undeclared, `undeclared` the others in order,
      numbered below `next`; `puts` are the messages handed to zenoh. */
  datatype Model = Model(
    tier1: bool, refs: uint32, initialized: bool, open: bool,
    pubs: seq<Slot>, subs: seq<Slot>, nodeToken: Option<nat>,
    live: set<nat>, undeclared: seq<nat>, next: nat, puts: seq<Put>)

  /** How the outside world answers one declaration: is the type known to the ledger, does zenoh
      accept the entity, does it accept the token. */
  datatype Answer = Answer(typeKnown: bool, declared: bool, tokenDeclared: bool)

  // ---- the operations on values ------------------------------------------------------------

  function Declare(m: Model): Model { m.(live := m.live + {m.next}, next := m.next + 1) }

  /** Undeclaring changes nothing but the entity's standing. */
  predicate SamePools(m: Model, r: Model) { r == m.(live := r.live, undeclared := r.undeclared) }

  function Undeclare(m: Model, id: nat): (r: Model)
    ensures SamePools(m, r)
  {
    m.(live := m.live - {id}, undeclared := m.undeclared + [id])
  }

  function UndeclareToken(m: Model, token: Option<nat>): (r: Model)
    ensures SamePools(m, r)
  {
    if token.None? then m else Undeclare(m, token.value)
  }

  /** zenbedded_transport_init. */
  function Init(m: Model, sessionOk: bool, tokenDeclared: bool): (Model, int) {
    if m.initialized then (m.(refs := (m.refs + 1) % WORD_RANGE), 0)
    else if !sessionOk then (m, -1)
    else
      var o := m.(initialized := true, open := true, refs := 1);
      if m.tier1 && tokenDeclared then (Declare(o).(nodeToken := Some(o.next)), 0)
      else (o.(nodeToken := None), 0)
  }

  function FirstFree(slots: seq<Slot>): (i: nat)
    ensures i <= |slots|
    ensures i < |slots| ==> !slots[i].inUse
    ensures forall j :: 0 <= j < i ==> slots[j].inUse
  {
    if slots == [] || !slots[0].inUse then 0 else 1 + FirstFree(slots[1..])
  }

  /** zenbedded_transport_declare_publisher; the handle is the slot number. */
  function DeclarePublisher(m: Model, a: Answer): (Model, Option<nat>) {
    var i := FirstFree(m.pubs);
    if !m.initialized || i == |m.pubs| || (m.tier1 && !a.typeKnown) || !a.declared then (m, None)
    else
      var token := if m.tier1 && a.tokenDeclared then Some(m.next + 1) else None;
      var d := Declare(m);
      var d' := if token.Some? then Declare(d) else d;
      var first := if m.tier1 then 0 else m.pubs[i].sequenceNumber;
      (d'.(pubs := m.pubs[i := Slot(true, m.next, token, first, m.pubs[i].callback)]), Some(i))
  }

  /** zenbedded_transport_declare_subscriber: the callback is stored before anything can fail. */
  function DeclareSubscriber(m: Model, a: Answer, callback: nat): (Model, Option<nat>) {
    var i := FirstFree(m.subs);
    if !m.initialized || i == |m.subs| then (m, None)
    else if (m.tier1 && !a.typeKnown) || !a.declared then
      (m.(subs := m.subs[i := m.subs[i].(callback := callback)]), None)
    else
      var token := if m.tier1 && a.tokenDeclared then Some(m.next + 1) else None;
      var d := Declare(m);
      var d' := if token.Some? then Declare(d) else d;
      (d'.(subs := m.subs[i := Slot(true, m.next, token, m.subs[i].sequenceNumber, callback)]), Some(i))
  }

  /** What undeclaring does to zenoh: first the token, then the entity. */
  function Retire(m: Model, s: Slot): (r: Model)
    ensures SamePools(m, r)
  {
    Undeclare(UndeclareToken(m, s.token), s.entity)
  }

  /** zenbedded_transport_undeclare_publisher; a handle outside the pool is the null pointer. */
  function UndeclarePublisher(m: Model, i: nat): (Model, int) {
    if i >= |m.pubs| || !m.initialized || !m.pubs[i].inUse then (m, -EINVAL)
    else (Retire(m, m.pubs[i]).(pubs := m.pubs[i := m.pubs[i].(inUse := false)]), 0)
  }

  function UndeclareSubscriber(m: Model, i: nat): (Model, int) {
    if i >= |m.subs| || !m.initialized || !m.subs[i].inUse then (m, -EINVAL)
    else (Retire(m, m.subs[i]).(subs := m.subs[i := m.subs[i].(inUse := false)]), 0)
  }

  /** The first n publishers that are in use, undeclared. */
  function UndeclarePublishers(m: Model, n: nat): (r: Model)
    ensures |r.pubs| == |m.pubs| && r.subs == m.subs && r.initialized == m.initialized
  {
    if n == 0 then m else UndeclarePublisher(UndeclarePublishers(m, n - 1), n - 1).0
  }

  function UndeclareSubscribers(m: Model, n: nat): (r: Model)
    ensures |r.subs| == |m.subs| && r.pubs == m.pubs && r.initialized == m.initialized
  {
    if n == 0 then m else UndeclareSubscriber(UndeclareSubscribers(m, n - 1), n - 1).0
  }

  function TearDown(m: Model): Model {
    var b := UndeclareSubscribers(UndeclarePublishers(m, |m.pubs|), |m.subs|);
    UndeclareToken(b, b.nodeToken).(nodeToken := None, open := false, initialized := false)
  }

  /** zenbedded_transport_destroy. */
  function Destroy(m: Model): Model {
    if !m.initialized || m.refs == 0 then m
    else if m.refs > 1 then m.(refs := m.refs - 1)
    else TearDown(m.(refs := 0))
  }

  /** zenbedded_transport_publish: no lock, only the in_use flag. */
  function Publish(m: Model, i: nat, payload: seq<byte>, accepted: bool): (Model, int) {
    if i >= |m.pubs| || !m.pubs[i].inUse then (m, -1)
    else
      var n := if m.tier1 then m.pubs[i].sequenceNumber + 1 else m.pubs[i].sequenceNumber;
      var p := m.(pubs := m.pubs[i := m.pubs[i].(sequenceNumber := n)],
                  puts := m.puts + [Put(m.pubs[i].entity, n, payload)]);
      (p, if accepted then 0 else -1)
  }

  datatype Op =
    | OpInit(sessionOk: bool, tokenDeclared: bool)
    | OpDestroy
    | OpDeclarePublisher(answer: Answer)
    | OpDeclareSubscriber(answer: Answer, callback: nat)
    | OpUndeclarePublisher(handle: nat)
    | OpUndeclareSubscriber(handle: nat)
    | OpPublish(handle: nat, payload: seq<byte>, accepted: bool)

  function Apply(m: Model, op: Op): Model {
    match op
    case OpInit(ok, token) => Init(m, ok, token).0
    case OpDestroy => Destroy(m)
    case OpDeclarePublisher(a) => DeclarePublisher(m, a).0
    case OpDeclareSubscriber(a, cb) => DeclareSubscriber(m, a, cb).0
    case OpUndeclarePublisher(h) => UndeclarePublisher(m, h).0
    case OpUndeclareSubscriber(h) => UndeclareSubscriber(m, h).0
    case OpPublish(h, payload, ok) => Publish(m, h, payload, ok).0
  }

  function Run(m: Model, ops: seq<Op>): Model
    decreases |ops|
  {
    if ops == [] then m else Apply(Run(m, ops[..|ops| - 1]), ops[|ops| - 1])
  }

  const FREE: Slot := Slot(false, 0, None, 0, 0)

  function Idle(n: nat): (s: seq<Slot>)
    ensures |s| == n && forall i :: 0 <= i < n ==> s[i] == FREE
  {
    seq<Slot>(n, _ => FREE)
  }

  /** Static storage before the first call. */
  function Boot(tier1: bool, maxPubs: nat, maxSubs: nat): Model {
    Model(tier1, 0, false, false, Idle(maxPubs), Idle(maxSubs), None, {}, [], 0, [])
  }

  // ---- ownership -----------------------------------------------------------------------------

  function TokenOwned(token: Option<nat>): multiset<nat> {
    if token.None? then multiset{} else multiset{token.value}
  }

  function SlotOwned(s: Slot): multiset<nat> {
    if s.inUse then multiset{s.entity} + TokenOwned(s.token) else multiset{}
  }

  function Owned(slots: seq<Slot>): multiset<nat> {
    if slots == [] then multiset{} else Owned(slots[..|slots| - 1]) + SlotOwned(slots[|slots| - 1])
  }

  /** The entity numbers below n, each once. */
  function Ids(n: nat): (ids: multiset<nat>)
    ensures forall x: nat :: ids[x] == if x < n then 1 else 0
  {
    if n == 0 then multiset{} else Ids(n - 1) + multiset{n - 1}
  }

  /** `owned` lists the live entities without repetition, and every entity ever declared is
      either live or was undeclared, once. */
  ghost predicate Ledger(m: Model, owned: multiset<nat>) {
    owned == multiset(m.live) && multiset(m.undeclared) + multiset(m.live) == Ids(m.next)
  }

  function AllOwned(m: Model): multiset<nat> {
    Owned(m.pubs) + Owned(m.subs) + TokenOwned(m.nodeToken)
  }

  ghost predicate FreeUpTo(slots: seq<Slot>, n: nat) {
    n <= |slots| && forall i :: 0 <= i < n ==> !slots[i].inUse
  }

  ghost predicate NoneInUse(slots: seq<Slot>) { FreeUpTo(slots, |slots|) }

  /** What every call keeps: each live entity is owned exactly once, by a slot in use or as the
      node token, and nothing is in use without an open session. */
  ghost predicate Consistent(m: Model) {
    && m.initialized == m.open
    && (m.refs > 0 ==> m.initialized)
    && (!m.initialized ==> m.nodeToken.None? && NoneInUse(m.pubs) && NoneInUse(m.subs))
    && Ledger(m, AllOwned(m))
  }

  lemma SwapUnder(a: multiset<nat>, l: multiset<nat>, x: multiset<nat>, y: multiset<nat>)
    requires x <= a
    ensures a - x + y + l == a + l - x + y
    ensures x <= a + l
  {
  }

  lemma {:induction false} OwnedAfterUpdate(slots: seq<Slot>, i: nat, s: Slot)
    requires i < |slots|
    ensures SlotOwned(slots[i]) <= Owned(slots)
    ensures Owned(slots[i := s]) == Owned(slots) - SlotOwned(slots[i]) + SlotOwned(s)
  {
    hide SlotOwned;
    var n := |slots| - 1;
    if i < n {
      OwnedAfterUpdate(slots[..n], i, s);
      assert slots[i := s][..n] == slots[..n][i := s];
      SwapUnder(Owned(slots[..n]), SlotOwned(slots[n]), SlotOwned(slots[i]), SlotOwned(s));
    } else {
      assert slots[i := s][..n] == slots[..n];
      assert Owned(slots) - SlotOwned(slots[n]) == Owned(slots[..n]);
    }
  }

  lemma {:induction false} NoneInUseOwnsNothing(slots: seq<Slot>)
    requires NoneInUse(slots)
    ensures Owned(slots) == multiset{}
  {
    if slots != [] { NoneInUseOwnsNothing(slots[..|slots| - 1]); }
  }

  lemma DeclareKeeps(m: Model, owned: multiset<nat>)
    requires Ledger(m, owned)
    ensures Ledger(Declare(m), owned + multiset{m.next})
  {
    assert m.next !in m.live by {
      assert Ids(m.next)[m.next] == 0;
      assert Ids(m.next)[m.next] == 0;
    }
  }

  lemma UndeclareKeeps(m: Model, owned: multiset<nat>, id: nat)
    requires Ledger(m, owned) && id in owned
    ensures Ledger(Undeclare(m, id), owned - multiset{id})
  {
    assert multiset(m.live)[id] == 1;
  }

  lemma UndeclareTokenKeeps(m: Model, owned: multiset<nat>, token: Option<nat>)
    requires Ledger(m, owned) && TokenOwned(token) <= owned
    ensures Ledger(UndeclareToken(m, token), owned - TokenOwned(token))
  {
    if token.Some? {
      assert TokenOwned(token)[token.value] == 1;
      UndeclareKeeps(m, owned, token.value);
    }
  }

  lemma RetireKeeps(m: Model, owned: multiset<nat>, s: Slot)
    requires Ledger(m, owned) && s.inUse && SlotOwned(s) <= owned
    ensures Ledger(Retire(m, s), owned - SlotOwned(s))
  {
    var mine := SlotOwned(s);
    assert forall x :: TokenOwned(s.token)[x] <= mine[x] <= owned[x];
    UndeclareTokenKeeps(m, owned, s.token);
    var rest := owned - TokenOwned(s.token);
    assert mine[s.entity] == TokenOwned(s.token)[s.entity] + 1;
    assert rest[s.entity] >= 1;
    UndeclareKeeps(UndeclareToken(m, s.token), rest, s.entity);
    assert rest - multiset{s.entity} == owned - mine;
  }

  // ---- every call keeps it -------------------------------------------------------------------

  lemma InitKeeps(m: Model, sessionOk: bool, tokenDeclared: bool)
    requires Consistent(m)
    ensures Consistent(Init(m, sessionOk, tokenDeclared).0)
  {
    hide Owned, Ids;
    if !m.initialized && sessionOk && m.tier1 && tokenDeclared {
      DeclareKeeps(m, AllOwned(m));
    }
  }

  /** A slot claimed for the entity and, possibly, the token declared right after it. */
  lemma ClaimKeeps(m: Model, rest: multiset<nat>, slots: seq<Slot>, i: nat, token: bool, s: Slot)
    requires Ledger(m, rest + Owned(slots)) && i < |slots| && !slots[i].inUse
    requires s.inUse && s.entity == m.next && s.token == if token then Some(m.next + 1) else None
    ensures Ledger(if token then Declare(Declare(m)) else Declare(m), rest + Owned(slots[i := s]))
  {
    var owned := rest + Owned(slots);
    DeclareKeeps(m, owned);
    OwnedAfterUpdate(slots, i, s);
    if token {
      DeclareKeeps(Declare(m), owned + multiset{m.next});
      assert owned + multiset{m.next} + multiset{m.next + 1} == rest + Owned(slots[i := s]);
    } else {
      assert owned + multiset{m.next} == rest + Owned(slots[i := s]);
    }
  }

  lemma DeclarePublisherKeeps(m: Model, a: Answer)
    requires Consistent(m)
    ensures Consistent(DeclarePublisher(m, a).0)
  {
    var (r, handle) := DeclarePublisher(m, a);
    if handle.Some? {
      var i, rest := handle.value, Owned(m.subs) + TokenOwned(m.nodeToken);
      assert rest + Owned(m.pubs) == AllOwned(m);
      ClaimKeeps(m, rest, m.pubs, i, m.tier1 && a.tokenDeclared, r.pubs[i]);
      assert rest + Owned(r.pubs) == AllOwned(r);
    }
  }

  lemma DeclareSubscriberKeeps(m: Model, a: Answer, callback: nat)
    requires Consistent(m)
    ensures Consistent(DeclareSubscriber(m, a, callback).0)
  {
    hide Owned, FirstFree, TokenOwned;
    var (r, handle) := DeclareSubscriber(m, a, callback);
    var i, rest := FirstFree(m.subs), Owned(m.pubs) + TokenOwned(m.nodeToken);
    assert rest + Owned(m.subs) == AllOwned(m);
    if handle.Some? {
      ClaimKeeps(m, rest, m.subs, i, m.tier1 && a.tokenDeclared, r.subs[i]);
      assert rest + Owned(r.subs) == AllOwned(r);
    } else if m.initialized && i < |m.subs| {
      OwnedAfterUpdate(m.subs, i, m.subs[i].(callback := callback));
      assert Owned(r.subs) == Owned(m.subs);
    }
  }

  lemma UndeclarePublisherKeeps(m: Model, i: nat)
    requires Consistent(m)
    ensures Consistent(UndeclarePublisher(m, i).0)
  {
    hide Owned, Retire, TokenOwned;
    if i < |m.pubs| && m.initialized && m.pubs[i].inUse {
      var s, r := m.pubs[i], UndeclarePublisher(m, i).0;
      OwnedAfterUpdate(m.pubs, i, s.(inUse := false));
      RetireKeeps(m, AllOwned(m), s);
      assert AllOwned(m) - SlotOwned(s) == AllOwned(r);
    }
  }

  lemma UndeclareSubscriberKeeps(m: Model, i: nat)
    requires Consistent(m)
    ensures Consistent(UndeclareSubscriber(m, i).0)
  {
    hide Owned, Retire, TokenOwned;
    if i < |m.subs| && m.initialized && m.subs[i].inUse {
      var s, r := m.subs[i], UndeclareSubscriber(m, i).0;
      OwnedAfterUpdate(m.subs, i, s.(inUse := false));
      RetireKeeps(m, AllOwned(m), s);
      assert AllOwned(m) - SlotOwned(s) == AllOwned(r);
    }
  }

  lemma {:induction false} UndeclarePublishersKeeps(m: Model, n: nat)
    requires Consistent(m) && m.initialized && n <= |m.pubs|
    ensures Consistent(UndeclarePublishers(m, n)) && FreeUpTo(UndeclarePublishers(m, n).pubs, n)
  {
    hide AllOwned, Retire, Ledger;
    if n > 0 {
      UndeclarePublishersKeeps(m, n - 1);
      var r := UndeclarePublishers(m, n - 1);
      UndeclarePublisherKeeps(r, n - 1);
    }
  }

  lemma {:induction false} UndeclareSubscribersKeeps(m: Model, n: nat)
    requires Consistent(m) && m.initialized && n <= |m.subs|
    ensures Consistent(UndeclareSubscribers(m, n)) && FreeUpTo(UndeclareSubscribers(m, n).subs, n)
  {
    hide AllOwned, Retire, Ledger;
    if n > 0 {
      UndeclareSubscribersKeeps(m, n - 1);
      var r := UndeclareSubscribers(m, n - 1);
      UndeclareSubscriberKeeps(r, n - 1);
    }
  }

  /** Undeclaring declares nothing. */
  lemma {:induction false} LoopsKeepNext(m: Model, n: nat)
    ensures UndeclarePublishers(m, n).next == m.next && UndeclareSubscribers(m, n).next == m.next
    ensures UndeclarePublishers(m, n).refs == m.refs && UndeclareSubscribers(m, n).refs == m.refs
    ensures UndeclarePublishers(m, n).nodeToken == m.nodeToken && UndeclareSubscribers(m, n).nodeToken == m.nodeToken
  {
    if n > 0 { LoopsKeepNext(m, n - 1); }
  }

  /** The two loops of the last destroy empty both pools. */
  lemma LoopsFreeEverything(m: Model) returns (b: Model)
    requires Consistent(m) && m.initialized
    ensures b == UndeclareSubscribers(UndeclarePublishers(m, |m.pubs|), |m.subs|)
    ensures Consistent(b) && NoneInUse(b.pubs) && NoneInUse(b.subs)
    ensures b.refs == m.refs && b.next == m.next && b.nodeToken == m.nodeToken && AllOwned(b) == TokenOwned(b.nodeToken)
  {
    hide AllOwned, Ledger, Consistent, UndeclarePublishers, UndeclareSubscribers;
    UndeclarePublishersKeeps(m, |m.pubs|);
    var a := UndeclarePublishers(m, |m.pubs|);
    UndeclareSubscribersKeeps(a, |m.subs|);
    b := UndeclareSubscribers(a, |m.subs|);
    LoopsKeepNext(m, |m.pubs|);
    LoopsKeepNext(a, |m.subs|);
    NothingInUse(b);
  }

  lemma NothingInUse(m: Model)
    requires NoneInUse(m.pubs) && NoneInUse(m.subs)
    ensures AllOwned(m) == TokenOwned(m.nodeToken)
  {
    NoneInUseOwnsNothing(m.pubs);
    NoneInUseOwnsNothing(m.subs);
  }

  /** The last destroy leaves nothing live and has undeclared every entity exactly once. */
  lemma LastDestroy(m: Model)
    requires Consistent(m) && m.refs == 1
    ensures Consistent(Destroy(m)) && !Destroy(m).open
    ensures Destroy(m).live == {} && multiset(Destroy(m).undeclared) == Ids(m.next)
  {
    hide AllOwned, UndeclarePublishers, UndeclareSubscribers;
    var z := m.(refs := 0);
    assert AllOwned(z) == AllOwned(m) by { SameSlotsSameOwned(m, z); }
    var b := LoopsFreeEverything(z);
    UndeclareTokenKeeps(b, AllOwned(b), b.nodeToken);
    var r := Destroy(m);
    NothingInUse(r);
    assert multiset(r.live) == multiset{};
  }

  lemma SameSlotsSameOwned(m: Model, r: Model)
    requires m.pubs == r.pubs && m.subs == r.subs && m.nodeToken == r.nodeToken
    ensures AllOwned(m) == AllOwned(r)
  {
  }

  lemma TearDownSizes(m: Model)
    ensures |TearDown(m).pubs| == |m.pubs| && |TearDown(m).subs| == |m.subs|
  {
    hide UndeclarePublishers, UndeclareSubscribers;
  }

  lemma DestroyKeeps(m: Model)
    requires Consistent(m)
    ensures Consistent(Destroy(m))
  {
    hide UndeclarePublishers, UndeclareSubscribers, Owned;
    if m.refs == 1 { LastDestroy(m); }
  }

  lemma PublishKeeps(m: Model, i: nat, payload: seq<byte>, accepted: bool)
    requires Consistent(m)
    ensures Consistent(Publish(m, i, payload, accepted).0)
  {
    hide Owned, TokenOwned, Ids;
    if i < |m.pubs| && m.pubs[i].inUse {
      var s := Publish(m, i, payload, accepted).0.pubs[i];
      assert SlotOwned(s) == SlotOwned(m.pubs[i]);
      OwnedAfterUpdate(m.pubs, i, s);
      assert Owned(m.pubs[i := s]) == Owned(m.pubs);
    }
  }

  lemma ApplyKeeps(m: Model, op: Op)
    requires Consistent(m)
    ensures Consistent(Apply(m, op))
  {
    match op {
      case OpInit(ok, token) => InitKeeps(m, ok, token);
      case OpDestroy => DestroyKeeps(m);
      case OpDeclarePublisher(a) => DeclarePublisherKeeps(m, a);
      case OpDeclareSubscriber(a, cb) => DeclareSubscriberKeeps(m, a, cb);
      case OpUndeclarePublisher(h) => UndeclarePublisherKeeps(m, h);
      case OpUndeclareSubscriber(h) => UndeclareSubscriberKeeps(m, h);
      case OpPublish(h, payload, ok) => PublishKeeps(m, h, payload, ok);
    }
  }

  // ---- over every run ------------------------------------------------------------------------

  lemma BootConsistent(tier1: bool, maxPubs: nat, maxSubs: nat)
    ensures Consistent(Boot(tier1, maxPubs, maxSubs))
  {
    NothingInUse(Boot(tier1, maxPubs, maxSubs));
  }

  /** In every run of calls, by any number of users and with any handles, stale ones included,
      each entity ever declared is either live and owned once or was undeclared once, and
      nothing is in use without an open session. */
  lemma {:induction false} RunConsistent(tier1: bool, maxPubs: nat, maxSubs: nat, ops: seq<Op>)
    ensures Consistent(Run(Boot(tier1, maxPubs, maxSubs), ops))
    decreases |ops|
  {
    if ops == [] {
      BootConsistent(tier1, maxPubs, maxSubs);
    } else {
      RunConsistent(tier1, maxPubs, maxSubs, ops[..|ops| - 1]);
      ApplyKeeps(Run(Boot(tier1, maxPubs, maxSubs), ops[..|ops| - 1]), ops[|ops| - 1]);
    }
  }

  lemma IncludedUnder(x: multiset<nat>, a: multiset<nat>, c: multiset<nat>)
    requires x <= a
    ensures x <= a + c && x + c <= a + c
  {
  }

  lemma {:induction false} OwnedByTwo(slots: seq<Slot>, i: nat, j: nat)
    requires i < j < |slots|
    ensures SlotOwned(slots[i]) + SlotOwned(slots[j]) <= Owned(slots)
  {
    hide SlotOwned;
    var n := |slots| - 1;
    var init := slots[..n];
    if j < n {
      OwnedByTwo(init, i, j);
      IncludedUnder(SlotOwned(slots[i]) + SlotOwned(slots[j]), Owned(init), SlotOwned(slots[n]));
    } else {
      OwnedAfterUpdate(init, i, slots[i]);
      IncludedUnder(SlotOwned(slots[i]), Owned(init), SlotOwned(slots[n]));
    }
  }

  /** No two handles in use stand for the same entity, and each stands for a live one. */
  lemma HandlesAreDistinct(m: Model)
    requires Consistent(m)
    ensures forall i :: 0 <= i < |m.pubs| && m.pubs[i].inUse ==> m.pubs[i].entity in m.live
    ensures forall i :: 0 <= i < |m.subs| && m.subs[i].inUse ==> m.subs[i].entity in m.live
    ensures forall i, j :: 0 <= i < j < |m.pubs| && m.pubs[i].inUse && m.pubs[j].inUse ==>
              m.pubs[i].entity != m.pubs[j].entity
    ensures forall i, j :: 0 <= i < j < |m.subs| && m.subs[i].inUse && m.subs[j].inUse ==>
              m.subs[i].entity != m.subs[j].entity
    ensures forall i, j :: 0 <= i < |m.pubs| && 0 <= j < |m.subs| && m.pubs[i].inUse && m.subs[j].inUse ==>
              m.pubs[i].entity != m.subs[j].entity
  {
    hide Owned, Ids;
    var live := multiset(m.live);
    forall i | 0 <= i < |m.pubs| && m.pubs[i].inUse ensures m.pubs[i].entity in m.live {
      OwnedAfterUpdate(m.pubs, i, m.pubs[i]);
      assert live[m.pubs[i].entity] >= SlotOwned(m.pubs[i])[m.pubs[i].entity];
    }
    forall i | 0 <= i < |m.subs| && m.subs[i].inUse ensures m.subs[i].entity in m.live {
      OwnedAfterUpdate(m.subs, i, m.subs[i]);
      assert live[m.subs[i].entity] >= SlotOwned(m.subs[i])[m.subs[i].entity];
    }
    forall i, j | 0 <= i < j < |m.pubs| && m.pubs[i].inUse && m.pubs[j].inUse
      ensures m.pubs[i].entity != m.pubs[j].entity
    {
      OwnedByTwo(m.pubs, i, j);
      OwnedOnce(SlotOwned(m.pubs[i]), SlotOwned(m.pubs[j]), m.live, m.pubs[i].entity);
    }
    forall i, j | 0 <= i < j < |m.subs| && m.subs[i].inUse && m.subs[j].inUse
      ensures m.subs[i].entity != m.subs[j].entity
    {
      OwnedByTwo(m.subs, i, j);
      OwnedOnce(SlotOwned(m.subs[i]), SlotOwned(m.subs[j]), m.live, m.subs[i].entity);
    }
    forall i, j | 0 <= i < |m.pubs| && 0 <= j < |m.subs| && m.pubs[i].inUse && m.subs[j].inUse
      ensures m.pubs[i].entity != m.subs[j].entity
    {
      OwnedAfterUpdate(m.pubs, i, m.pubs[i]);
      OwnedAfterUpdate(m.subs, j, m.subs[j]);
      OwnedOnce(SlotOwned(m.pubs[i]), SlotOwned(m.subs[j]), m.live, m.pubs[i].entity);
    }
  }

  lemma OwnedOnce(a: multiset<nat>, b: multiset<nat>, live: set<nat>, x: nat)
    requires a + b <= multiset(live) && x in a
    ensures x !in b
  {
    assert (a + b)[x] <= multiset(live)[x] <= 1;
  }

  lemma NextIsFresh(m: Model, id: nat)
    requires Consistent(m) && id >= m.next
    ensures id !in m.live && id !in m.undeclared
  {
    assert Ids(m.next)[id] == 0;
    assert multiset(m.live)[id] <= Ids(m.next)[id];
    assert multiset(m.undeclared)[id] <= Ids(m.next)[id];
  }

  /** init fails exactly when there is no session and none can be opened, and then nothing happens. With a
      session it is one more reference and nothing else; otherwise it opens one for one reference and, in
      Tier 1, announces the node by a new entity when zenoh accepts it. */
  lemma InitOutcome(m: Model, sessionOk: bool, tokenDeclared: bool)
    requires Consistent(m) && m.refs < WORD_RANGE - 1
    ensures var (r, ret) := Init(m, sessionOk, tokenDeclared);
      && (ret == 0 <==> m.open || sessionOk) && (ret != 0 ==> ret == -1 && r == m)
      && (m.open ==> r == m.(refs := m.refs + 1))
      && (!m.open && sessionOk ==>
            && r.open && r.initialized && r.refs == 1 && r.pubs == m.pubs && r.subs == m.subs
            && (r.nodeToken.Some? <==> m.tier1 && tokenDeclared)
            && r.live == m.live + (if r.nodeToken.Some? then {r.nodeToken.value} else {})
            && (r.nodeToken.Some? ==> r.nodeToken.value !in m.live && r.nodeToken.value !in m.undeclared))
  {
    hide Ids, Ledger, AllOwned;
    NextIsFresh(m, m.next);
  }

  /** destroy without a reference does nothing, with several it drops one, and the last one closes the
      session with nothing left declared; in no case does it send anything. */
  lemma DestroyOutcome(m: Model)
    requires Consistent(m)
    ensures var r := Destroy(m);
      && (m.refs == 0 ==> r == m)
      && (m.refs > 1 ==> r == m.(refs := m.refs - 1))
      && (m.refs == 1 ==> r.refs == 0 && !r.open && r.live == {} && NoneInUse(r.pubs) && NoneInUse(r.subs))
      && r.puts == m.puts
  {
    hide UndeclarePublishers, UndeclareSubscribers, UndeclareToken, Ledger, AllOwned;
    if m.refs == 1 {
      LastDestroy(m);
      TearDownKeepsTheRest(m.(refs := 0));
    }
  }

  lemma TearDownKeepsTheRest(m: Model)
    ensures TearDown(m).refs == m.refs && TearDown(m).puts == m.puts
  {
    hide UndeclarePublishers, UndeclareSubscribers;
    LoopsSendNothing(m, |m.pubs|);
    LoopsSendNothing(UndeclarePublishers(m, |m.pubs|), |m.subs|);
  }

  lemma {:induction false} LoopsSendNothing(m: Model, n: nat)
    ensures UndeclarePublishers(m, n).refs == m.refs && UndeclarePublishers(m, n).puts == m.puts
    ensures UndeclareSubscribers(m, n).refs == m.refs && UndeclareSubscribers(m, n).puts == m.puts
  {
    if n > 0 { LoopsSendNothing(m, n - 1); }
  }

  /** A publish through a handle in use hands zenoh exactly one message, the caller's payload, for the
      entity that owns the slot; in Tier 1 it carries the slot's next number, and nothing else changes.
      A free or foreign handle is refused and sends nothing. */
  lemma PublishOutcome(m: Model, i: nat, payload: seq<byte>, accepted: bool)
    ensures var (r, ret) := Publish(m, i, payload, accepted);
      && (i < |m.pubs| && m.pubs[i].inUse ==>
            && |r.pubs| == |m.pubs| && (forall j :: 0 <= j < |m.pubs| && j != i ==> r.pubs[j] == m.pubs[j])
            && r.pubs[i] == m.pubs[i].(sequenceNumber := r.pubs[i].sequenceNumber)
            && r.pubs[i].sequenceNumber - m.pubs[i].sequenceNumber == (if m.tier1 then 1 else 0)
            && r == m.(pubs := r.pubs, puts := r.puts)
            && |r.puts| == |m.puts| + 1 && m.puts <= r.puts
            && r.puts[|m.puts|].entity == m.pubs[i].entity && r.puts[|m.puts|].payload == payload
            && r.puts[|m.puts|].sequenceNumber == r.pubs[i].sequenceNumber
            && (ret == 0 <==> accepted) && (ret == -1 <==> !accepted))
      && (i >= |m.pubs| || !m.pubs[i].inUse ==> r == m && ret == -1)
  {}

  /** A declaration succeeds exactly when there is a session, a free slot and zenoh agrees; it
      then hands out a handle nobody holds for a new entity.  When it fails no slot in use
      changes and no free slot is taken. */
  lemma DeclareOutcome(m: Model, a: Answer)
    requires Consistent(m)
    ensures var (r, h) := DeclarePublisher(m, a);
      && (h.Some? <==> m.initialized && !(forall i :: 0 <= i < |m.pubs| ==> m.pubs[i].inUse)
                       && (m.tier1 ==> a.typeKnown) && a.declared)
      && (h.Some? ==>
            && h.value < |m.pubs| == |r.pubs| && !m.pubs[h.value].inUse && r.pubs[h.value].inUse
            && r.pubs[h.value].entity !in m.live && r.pubs[h.value].entity !in m.undeclared
            && r.subs == m.subs && r.refs == m.refs
            && forall j :: 0 <= j < |m.pubs| && j != h.value ==> r.pubs[j] == m.pubs[j])
      && (h.None? ==> r == m)
  {
    NextIsFresh(m, m.next);
    hide Owned, Ids, Ledger;
  }

  lemma DeclareSubscriberOutcome(m: Model, a: Answer, callback: nat)
    requires Consistent(m)
    ensures var (r, h) := DeclareSubscriber(m, a, callback);
      && (h.Some? <==> m.initialized && !(forall i :: 0 <= i < |m.subs| ==> m.subs[i].inUse)
                       && (m.tier1 ==> a.typeKnown) && a.declared)
      && (h.Some? ==> h.value < |m.subs| && !m.subs[h.value].inUse && r.subs[h.value].inUse
                      && r.subs[h.value].callback == callback && r.subs[h.value].entity !in m.live)
      && |r.subs| == |m.subs| && r.pubs == m.pubs
      && (forall j :: 0 <= j < |m.subs| && m.subs[j].inUse ==> r.subs[j] == m.subs[j])
      && (h.None? ==> r.live == m.live && r.next == m.next
                      && forall j :: 0 <= j < |m.subs| ==> r.subs[j].inUse == m.subs[j].inUse)
  {
    NextIsFresh(m, m.next);
    var i := FirstFree(m.subs);
    if i < |m.subs| { assert !m.subs[i].inUse; }
    hide Consistent, Declare, FirstFree;
    var r := DeclareSubscriber(m, a, callback).0;
    assert r.subs == m.subs || (i < |m.subs| && r.subs == m.subs[i := r.subs[i]]);
  }

  /** What a granted slot owns: an entity that is live from then on and, in Tier 1 when zenoh accepts it, a
      liveliness token besides. */
  ghost predicate Announced(m: Model, r: Model, s: Slot, a: Answer) {
    && r.live == m.live + {s.entity} + (if s.token.Some? then {s.token.value} else {})
    && (s.token.Some? <==> m.tier1 && a.tokenDeclared) && s.token != Some(s.entity)
    && s.entity !in m.live && (s.token.Some? ==> s.token.value !in m.live)
    && r.undeclared == m.undeclared
  }

  lemma DeclaredPair(m: Model)
    ensures Declare(m).live == m.live + {m.next} && Declare(m).undeclared == m.undeclared
    ensures Declare(Declare(m)).live == m.live + {m.next} + {m.next + 1}
    ensures Declare(Declare(m)).undeclared == m.undeclared
  {}

  lemma GrantedPublisherIsAnnounced(m: Model, a: Answer)
    requires Consistent(m) && DeclarePublisher(m, a).1.Some?
    ensures var (r, h) := DeclarePublisher(m, a); Announced(m, r, r.pubs[h.value], a)
  {
    hide Consistent, Announced, Declare, FirstFree;
    var r := DeclarePublisher(m, a).0;
    PairIsAnnounced(m, r, r.pubs[FirstFree(m.pubs)], a);
  }

  lemma GrantedSubscriberIsAnnounced(m: Model, a: Answer, callback: nat)
    requires Consistent(m) && DeclareSubscriber(m, a, callback).1.Some?
    ensures var (r, h) := DeclareSubscriber(m, a, callback); Announced(m, r, r.subs[h.value], a)
  {
    hide Consistent, Announced, Declare, FirstFree;
    var r := DeclareSubscriber(m, a, callback).0;
    PairIsAnnounced(m, r, r.subs[FirstFree(m.subs)], a);
  }

  lemma PairIsAnnounced(m: Model, r: Model, s: Slot, a: Answer)
    requires Consistent(m) && s.entity == m.next
    requires s.token == if m.tier1 && a.tokenDeclared then Some(m.next + 1) else None
    requires var d := if s.token.Some? then Declare(Declare(m)) else Declare(m);
             r.live == d.live && r.undeclared == d.undeclared
    ensures Announced(m, r, s, a)
  {
    NextIsFresh(m, m.next);
    NextIsFresh(m, m.next + 1);
    DeclaredPair(m);
  }

  /** A publisher handle is refused exactly when there is no session or its slot is free now, and then
      nothing happens. Otherwise the entity the slot owns now goes, whoever declared it, and every
      other slot in use keeps its own. */
  lemma UndeclarePublisherOutcome(m: Model, i: nat)
    requires Consistent(m)
    ensures var (r, ret) := UndeclarePublisher(m, i);
      && (ret == -EINVAL <==> !m.open || i >= |m.pubs| || !m.pubs[i].inUse)
      && (ret == -EINVAL ==> r == m)
      && (ret != -EINVAL ==>
            && ret == 0 && m.pubs[i].entity in m.live && m.pubs[i].entity !in r.live
            && r.undeclared == m.undeclared + (if m.pubs[i].token.Some? then [m.pubs[i].token.value] else [])
                               + [m.pubs[i].entity]
            && r.subs == m.subs && |r.pubs| == |m.pubs| && !r.pubs[i].inUse
            && (forall j :: 0 <= j < |m.pubs| && j != i ==> r.pubs[j] == m.pubs[j])
            && (forall j :: 0 <= j < |r.pubs| && r.pubs[j].inUse ==> r.pubs[j].entity in r.live)
            && (forall j :: 0 <= j < |r.subs| && r.subs[j].inUse ==> r.subs[j].entity in r.live))
  {
    hide Ledger, AllOwned, Ids;
    HandlesAreDistinct(m);
    UndeclarePublisherKeeps(m, i);
    HandlesAreDistinct(UndeclarePublisher(m, i).0);
  }

  lemma FirstFreeIs(slots: seq<Slot>, i: nat)
    requires i < |slots| && !slots[i].inUse && forall j :: 0 <= j < i ==> slots[j].inUse
    ensures FirstFree(slots) == i
  {}

  /** Two users in turn: when the first has undeclared and the second declares, the second gets the same
      handle, and the first user's old handle then takes down the second user's publisher. */
  lemma ReusedPublisherHandleTakesTheNewOwner(m: Model, a: Answer, b: Answer)
    requires Consistent(m) && DeclarePublisher(m, a).1.Some? && (m.tier1 ==> b.typeKnown) && b.declared
    ensures var (m1, h1) := DeclarePublisher(m, a);
      var m2 := UndeclarePublisher(m1, h1.value).0;
      var (m3, h3) := DeclarePublisher(m2, b);
      var (m4, ret) := UndeclarePublisher(m3, h1.value);
      && h3 == h1 && h1.value < |m3.pubs| && m3.pubs[h1.value].inUse
      && m3.pubs[h1.value].entity in m3.live
      && ret == 0 && !m4.pubs[h1.value].inUse && m3.pubs[h1.value].entity !in m4.live
  {
    hide Ledger, AllOwned, Ids, FirstFree;
    var (m1, h1) := DeclarePublisher(m, a);
    var i := h1.value;
    DeclarePublisherKeeps(m, a);
    var m2 := UndeclarePublisher(m1, i).0;
    UndeclarePublisherKeeps(m1, i);
    FirstFreeIs(m.pubs, i);
    FirstFreeIs(m2.pubs, i);
    var m3 := DeclarePublisher(m2, b).0;
    DeclarePublisherKeeps(m2, b);
    UndeclarePublisherOutcome(m3, i);
  }

  /** A subscriber handle is refused exactly when there is no session or its slot is free now, and then
      nothing happens. Otherwise the entity the slot owns now goes, whoever declared it, and every
      other slot in use keeps its own. */
  lemma UndeclareSubscriberOutcome(m: Model, i: nat)
    requires Consistent(m)
    ensures var (r, ret) := UndeclareSubscriber(m, i);
      && (ret == -EINVAL <==> !m.open || i >= |m.subs| || !m.subs[i].inUse)
      && (ret == -EINVAL ==> r == m)
      && (ret != -EINVAL ==>
            && ret == 0 && m.subs[i].entity in m.live && m.subs[i].entity !in r.live
            && r.undeclared == m.undeclared + (if m.subs[i].token.Some? then [m.subs[i].token.value] else [])
                               + [m.subs[i].entity]
            && r.pubs == m.pubs && |r.subs| == |m.subs| && !r.subs[i].inUse
            && (forall j :: 0 <= j < |m.subs| && j != i ==> r.subs[j] == m.subs[j])
            && (forall j :: 0 <= j < |r.pubs| && r.pubs[j].inUse ==> r.pubs[j].entity in r.live)
            && (forall j :: 0 <= j < |r.subs| && r.subs[j].inUse ==> r.subs[j].entity in r.live))
  {
    hide Ledger, AllOwned, Ids;
    HandlesAreDistinct(m);
    UndeclareSubscriberKeeps(m, i);
    HandlesAreDistinct(UndeclareSubscriber(m, i).0);
  }

  /** Two users in turn: when the first has undeclared and the second declares, the second gets the same
      handle, and the first user's old handle then takes down the second user's subscriber. */
  lemma ReusedSubscriberHandleTakesTheNewOwner(m: Model, a: Answer, b: Answer, callback: nat)
    requires Consistent(m) && DeclareSubscriber(m, a, callback).1.Some? && (m.tier1 ==> b.typeKnown) && b.declared
    ensures var (m1, h1) := DeclareSubscriber(m, a, callback);
      var m2 := UndeclareSubscriber(m1, h1.value).0;
      var (m3, h3) := DeclareSubscriber(m2, b, callback);
      var (m4, ret) := UndeclareSubscriber(m3, h1.value);
      && h3 == h1 && h1.value < |m3.subs| && m3.subs[h1.value].inUse
      && m3.subs[h1.value].entity in m3.live
      && ret == 0 && !m4.subs[h1.value].inUse && m3.subs[h1.value].entity !in m4.live
  {
    hide Ledger, AllOwned, Ids, FirstFree;
    var (m1, h1) := DeclareSubscriber(m, a, callback);
    var i := h1.value;
    DeclareSubscriberKeeps(m, a, callback);
    var m2 := UndeclareSubscriber(m1, i).0;
    UndeclareSubscriberKeeps(m1, i);
    FirstFreeIs(m.subs, i);
    FirstFreeIs(m2.subs, i);
    var m3 := DeclareSubscriber(m2, b, callback).0;
    DeclareSubscriberKeeps(m2, b, callback);
    UndeclareSubscriberOutcome(m3, i);
  }

  // ---- the reference count -------------------------------------------------------------------

  /** The session is open exactly when the count is positive ... */
  ghost predicate CountedExactly(m: Model) { m.open <==> m.refs > 0 }

  /** ... and every call keeps it so, except an init when the 32-bit count is at its maximum. */
  lemma CountKeptUnlessItWraps(m: Model, op: Op)
    requires Consistent(m) && CountedExactly(m)
    ensures CountedExactly(Apply(m, op)) <==> !(op.OpInit? && m.refs == WORD_RANGE - 1)
  {
    hide Owned, Ids, Retire, Ledger;
    if op.OpDestroy? && m.refs == 1 {
      LoopsKeepNext(m.(refs := 0), |m.pubs|);
      LoopsKeepNext(UndeclarePublishers(m.(refs := 0), |m.pubs|), |m.subs|);
    }
  }

  ghost predicate NeverWraps(m: Model, ops: seq<Op>)
    decreases |ops|
  {
    ops == [] || (NeverWraps(m, ops[..|ops| - 1])
                  && !(ops[|ops| - 1].OpInit? && Run(m, ops[..|ops| - 1]).refs == WORD_RANGE - 1))
  }

  lemma {:induction false} SessionOpenExactlyWhenCounted(tier1: bool, maxPubs: nat, maxSubs: nat, ops: seq<Op>)
    requires NeverWraps(Boot(tier1, maxPubs, maxSubs), ops)
    ensures CountedExactly(Run(Boot(tier1, maxPubs, maxSubs), ops))
    decreases |ops|
  {
    hide Apply, Consistent;
    if ops != [] {
      var before := ops[..|ops| - 1];
      SessionOpenExactlyWhenCounted(tier1, maxPubs, maxSubs, before);
      RunConsistent(tier1, maxPubs, maxSubs, before);
      CountKeptUnlessItWraps(Run(Boot(tier1, maxPubs, maxSubs), before), ops[|ops| - 1]);
    }
  }

  function Inits(k: nat): (ops: seq<Op>)
    ensures |ops| == k
  {
    seq<Op>(k, _ => OpInit(true, true))
  }

  lemma {:induction false} CountAfterInits(tier1: bool, maxPubs: nat, maxSubs: nat, k: nat)
    requires k >= 1
    ensures var m := Run(Boot(tier1, maxPubs, maxSubs), Inits(k));
      m.initialized && m.open && m.refs == k % WORD_RANGE
  {
    hide DeclarePublisher, DeclareSubscriber, UndeclarePublisher, UndeclareSubscriber, Publish, Destroy;
    assert Inits(k)[..k - 1] == Inits(k - 1);
    if k == 1 {
      assert Run(Boot(tier1, maxPubs, maxSubs), Inits(0)) == Boot(tier1, maxPubs, maxSubs);
    } else {
      CountAfterInits(tier1, maxPubs, maxSubs, k - 1);
    }
  }

  /** The exception is real: after 2^32 inits the session is open with a count of zero, and
      then destroy is ignored. */
  lemma WrappedCountLosesTheSession(tier1: bool, maxPubs: nat, maxSubs: nat)
    ensures var m := Run(Boot(tier1, maxPubs, maxSubs), Inits(WORD_RANGE));
      m.open && m.refs == 0 && Destroy(m) == m
  {
    CountAfterInits(tier1, maxPubs, maxSubs, WORD_RANGE);
  }

  // ---- what is sent ----------------------------------------------------------------------------

  /** The messages handed to zenoh for an entity. */
  function Payloads(puts: seq<Put>, entity: nat): seq<seq<byte>> {
    if puts == [] then []
    else
      var before, last := Payloads(puts[..|puts| - 1], entity), puts[|puts| - 1];
      if last.entity == entity then before + [last.payload] else before
  }

  /** The payloads of the publish calls of a run whose handle's slot the entity owned at the time. */
  function Served(m: Model, ops: seq<Op>, entity: nat): seq<seq<byte>> {
    if ops == [] then []
    else
      var init, op := ops[..|ops| - 1], ops[|ops| - 1];
      var s := Run(m, init);
      if op.OpPublish? && op.handle < |s.pubs| && s.pubs[op.handle].inUse && s.pubs[op.handle].entity == entity
      then Served(m, init, entity) + [op.payload]
      else Served(m, init, entity)
  }

  lemma OnlyPublishingSends(m: Model, op: Op)
    requires !op.OpPublish?
    ensures Apply(m, op).puts == m.puts
  {
    hide FirstFree, UndeclarePublishers, UndeclareSubscribers;
    if op.OpDestroy? {
      LoopsSendNothing(m.(refs := 0), |m.pubs|);
      LoopsSendNothing(UndeclarePublishers(m.(refs := 0), |m.pubs|), |m.subs|);
    }
  }

  lemma PayloadsOneMore(puts: seq<Put>, p: Put, e: nat)
    ensures Payloads(puts + [p], e) == if p.entity == e then Payloads(puts, e) + [p.payload] else Payloads(puts, e)
  {
    assert (puts + [p])[..|puts|] == puts;
  }

  /** Over every run, in both tiers and with any handles: what zenoh was handed for an entity is, in order,
      exactly what was published through the slot while the entity owned it. */
  lemma {:induction false} EveryServedPublishIsSent(tier1: bool, maxPubs: nat, maxSubs: nat, ops: seq<Op>, entity: nat)
    ensures var boot := Boot(tier1, maxPubs, maxSubs);
      Payloads(Run(boot, ops).puts, entity) == Served(boot, ops, entity)
    decreases |ops|
  {
    hide Payloads;
    var boot := Boot(tier1, maxPubs, maxSubs);
    if ops == [] {
      NothingSent(entity);
    } else {
      var init, op := ops[..|ops| - 1], ops[|ops| - 1];
      var s := Run(boot, init);
      EveryServedPublishIsSent(tier1, maxPubs, maxSubs, init, entity);
      if op.OpPublish? {
        var r := Publish(s, op.handle, op.payload, op.accepted).0;
        if op.handle < |s.pubs| && s.pubs[op.handle].inUse {
          PayloadsOneMore(s.puts, r.puts[|s.puts|], entity);
        }
      } else {
        hide Apply;
        OnlyPublishingSends(s, op);
      }
    }
  }

  lemma NothingSent(entity: nat)
    ensures Payloads([], entity) == []
  {}

  lemma {:induction false} AsManyNumbersAsPayloads(puts: seq<Put>, entity: nat)
    ensures |Numbers(puts, entity)| == |Payloads(puts, entity)|
  {
    if puts != [] { AsManyNumbersAsPayloads(puts[..|puts| - 1], entity); }
  }

  // ---- sequence numbers ----------------------------------------------------------------------

  function UpTo(n: nat): (s: seq<nat>)
    ensures |s| == n
  {
    if n == 0 then [] else UpTo(n - 1) + [n]
  }

  function Numbers(puts: seq<Put>, entity: nat): seq<nat> {
    if puts == [] then []
    else
      var before, last := Numbers(puts[..|puts| - 1], entity), puts[|puts| - 1];
      if last.entity == entity then before + [last.sequenceNumber] else before
  }

  ghost predicate Sequenced(m: Model) {
    && (forall e: nat :: Numbers(m.puts, e) == UpTo(|Numbers(m.puts, e)|))
    && (forall e: nat :: e >= m.next ==> Numbers(m.puts, e) == [])
    && (forall i :: 0 <= i < |m.pubs| && m.pubs[i].inUse ==>
          m.pubs[i].sequenceNumber == |Numbers(m.puts, m.pubs[i].entity)|)
  }

  lemma OneMorePut(puts: seq<Put>, p: Put, e: nat)
    ensures Numbers(puts + [p], e)
         == if p.entity == e then Numbers(puts, e) + [p.sequenceNumber] else Numbers(puts, e)
  {
    assert (puts + [p])[..|puts|] == puts;
  }

  lemma PublishSequenced(m: Model, i: nat, payload: seq<byte>, accepted: bool)
    requires m.tier1 && Consistent(m) && Sequenced(m)
    ensures Sequenced(Publish(m, i, payload, accepted).0)
  {
    hide Ids, Owned, Consistent, Numbers;
    var r := Publish(m, i, payload, accepted).0;
    if i < |m.pubs| && m.pubs[i].inUse {
      var p := Put(m.pubs[i].entity, m.pubs[i].sequenceNumber + 1, payload);
      HandlesAreDistinct(m);
      LiveBelowNext(m, p.entity);
      forall e: nat
        ensures Numbers(r.puts, e) == UpTo(|Numbers(r.puts, e)|)
        ensures e >= r.next ==> Numbers(r.puts, e) == []
      {
        OneMorePut(m.puts, p, e);
      }
      forall j | 0 <= j < |r.pubs| && r.pubs[j].inUse
        ensures r.pubs[j].sequenceNumber == |Numbers(r.puts, r.pubs[j].entity)|
      {
        OneMorePut(m.puts, p, r.pubs[j].entity);
      }
    }
  }

  lemma DeclareSequenced(m: Model, a: Answer)
    requires m.tier1 && Sequenced(m)
    ensures Sequenced(DeclarePublisher(m, a).0)
  {
    hide Numbers, UpTo;
  }

  lemma OtherCallsSequenced(m: Model, op: Op)
    requires m.tier1 && Sequenced(m) && !op.OpPublish? && !op.OpDeclarePublisher? && !op.OpDestroy?
    ensures Sequenced(Apply(m, op))
  {
    hide Numbers, UpTo, FirstFree;
  }

  lemma {:induction false} LoopsSequenced(m: Model, n: nat)
    requires Sequenced(m)
    ensures Sequenced(UndeclarePublishers(m, n)) && Sequenced(UndeclareSubscribers(m, n))
  {
    hide Numbers, UpTo;
    if n > 0 { LoopsSequenced(m, n - 1); }
  }

  lemma DestroySequenced(m: Model)
    requires Sequenced(m)
    ensures Sequenced(Destroy(m))
  {
    hide Numbers, UpTo, UndeclarePublishers, UndeclareSubscribers;
    if m.refs == 1 {
      var z := m.(refs := 0);
      LoopsSequenced(z, |m.pubs|);
      LoopsSequenced(UndeclarePublishers(z, |m.pubs|), |m.subs|);
    }
  }

  lemma {:induction false} TierKept(m: Model, n: nat)
    ensures UndeclarePublishers(m, n).tier1 == m.tier1 && UndeclareSubscribers(m, n).tier1 == m.tier1
  {
    if n > 0 { TierKept(m, n - 1); }
  }

  lemma ApplyKeepsTier(m: Model, op: Op)
    ensures Apply(m, op).tier1 == m.tier1
  {
    if op.OpDestroy? {
      TierKept(m.(refs := 0), |m.pubs|);
      TierKept(UndeclarePublishers(m.(refs := 0), |m.pubs|), |m.subs|);
    }
  }

  lemma {:induction false} RunSequenced(maxPubs: nat, maxSubs: nat, ops: seq<Op>)
    ensures Run(Boot(true, maxPubs, maxSubs), ops).tier1 && Sequenced(Run(Boot(true, maxPubs, maxSubs), ops))
    decreases |ops|
  {
    hide Apply, Consistent;
    if ops != [] {
      var before, op := ops[..|ops| - 1], ops[|ops| - 1];
      var m := Run(Boot(true, maxPubs, maxSubs), before);
      RunSequenced(maxPubs, maxSubs, before);
      RunConsistent(true, maxPubs, maxSubs, before);
      ApplyKeepsTier(m, op);
      StepSequenced(m, op);
    }
  }

  lemma StepSequenced(m: Model, op: Op)
    requires m.tier1 && Consistent(m) && Sequenced(m)
    ensures Sequenced(Apply(m, op))
  {
    hide Consistent, Sequenced;
    match op {
      case OpDestroy => DestroySequenced(m);
      case OpDeclarePublisher(a) => DeclareSequenced(m, a);
      case OpPublish(h, payload, ok) => PublishSequenced(m, h, payload, ok);
      case _ => OtherCallsSequenced(m, op);
    }
  }

  /** In Tier 1 the messages of one publisher, from its declaration on and across reuse of its
      slot, carry 1, 2, 3, ... as many as were published through it, whatever else happens in between. */
  lemma SequenceNumbersCountUp(maxPubs: nat, maxSubs: nat, ops: seq<Op>, entity: nat)
    ensures var boot := Boot(true, maxPubs, maxSubs);
      Numbers(Run(boot, ops).puts, entity) == UpTo(|Served(boot, ops, entity)|)
  {
    hide Served, Payloads, Numbers, UpTo;
    RunSequenced(maxPubs, maxSubs, ops);
    EveryServedPublishIsSent(true, maxPubs, maxSubs, ops, entity);
    AsManyNumbersAsPayloads(Run(Boot(true, maxPubs, maxSubs), ops).puts, entity);
  }

  lemma LiveBelowNext(m: Model, id: nat)
    requires Consistent(m) && id in m.live
    ensures id < m.next
  {
    assert multiset(m.live)[id] <= Ids(m.next)[id];
  }
}
