/**
 The static state and functions of zenbedded_transport/src/zenoh_transport.c, run step by step
 under the re-entrant mutex and proved against the operations of `Transport`.
 */
module ZenohTransport {
  import opened Bytes
  import opened Transport

  class Service {
    const tier1: bool
    const pubPool: array<Slot>
    const subPool: array<Slot>
    var refCount: uint32
    var isInitialized: bool
    var lockDepth: nat
    var nodeToken: Option<nat>
    // zenoh-pico as far as it is visible from here
    var sessionOpen: bool
    var nextEntity: nat
    ghost var live: set<nat>
    ghost var undeclared: seq<nat>
    ghost var puts: seq<Put>

    ghost function Abs(): Model
      reads this, pubPool, subPool
    {
      Model(tier1, refCount, isInitialized, sessionOpen, pubPool[..], subPool[..], nodeToken,
            live, undeclared, nextEntity, puts)
    }

    constructor (tier1: bool, maxPublishers: nat, maxSubscribers: nat)
      ensures Abs() == Boot(tier1, maxPublishers, maxSubscribers) && lockDepth == 0
      ensures fresh(pubPool) && fresh(subPool) && pubPool != subPool
    {
      this.tier1 := tier1;
      pubPool := new Slot[maxPublishers](_ => FREE);
      subPool := new Slot[maxSubscribers](_ => FREE);
      refCount, isInitialized, lockDepth, nodeToken := 0, false, 0, None;
      sessionOpen, nextEntity, live, undeclared, puts := false, 0, {}, [], [];
      new;
      assert pubPool[..] == Idle(maxPublishers) && subPool[..] == Idle(maxSubscribers);
    }

    method Lock()
      modifies this`lockDepth
      ensures lockDepth == old(lockDepth) + 1
    {
      lockDepth := lockDepth + 1;
    }

    method Unlock()
      requires lockDepth > 0
      modifies this`lockDepth
      ensures lockDepth == old(lockDepth) - 1
    {
      lockDepth := lockDepth - 1;
    }

    method NewEntity() returns (id: nat)
      modifies this`nextEntity, this`live
      ensures id == old(nextEntity) && Abs() == Declare(old(Abs()))
    {
      id := nextEntity;
      nextEntity := nextEntity + 1;
      live := live + {id};
    }

    method DropEntity(id: nat)
      modifies this`live, this`undeclared
      ensures Abs() == Undeclare(old(Abs()), id)
    {
      live := live - {id};
      undeclared := undeclared + [id];
    }

    method DropToken(token: Option<nat>)
      modifies this`live, this`undeclared
      ensures Abs() == UndeclareToken(old(Abs()), token)
    {
      if token.Some? { DropEntity(token.value); }
    }

    /** zenbedded_transport_init */
    method Initialize(sessionOk: bool, tokenDeclared: bool) returns (ret: int)
      modifies this
      ensures (Abs(), ret) == Init(old(Abs()), sessionOk, tokenDeclared) && lockDepth == old(lockDepth)
    {
      Lock();
      if isInitialized {
        refCount := (refCount + 1) % WORD_RANGE;
        Unlock();
        return 0;
      }
      if !sessionOk {
        Unlock();
        return -1;
      }
      sessionOpen := true;
      nodeToken := None;
      if tier1 && tokenDeclared {
        var token := NewEntity();
        nodeToken := Some(token);
      }
      isInitialized := true;
      refCount := 1;
      Unlock();
      return 0;
    }

    /** The entity and, in Tier 1, its liveliness token. */
    method NewPair(a: Answer) returns (entity: nat, token: Option<nat>)
      modifies this`nextEntity, this`live
      ensures entity == old(nextEntity)
      ensures token == if tier1 && a.tokenDeclared then Some(old(nextEntity) + 1) else None
      ensures Abs() == if token.Some? then Declare(Declare(old(Abs()))) else Declare(old(Abs()))
    {
      entity := NewEntity();
      token := None;
      if tier1 && a.tokenDeclared {
        var t := NewEntity();
        token := Some(t);
      }
    }

    /** The scan for a free entry. */
    method FindFree(pool: array<Slot>) returns (i: nat)
      ensures i == FirstFree(pool[..])
    {
      i := 0;
      while i < pool.Length
        invariant i <= pool.Length && FirstFree(pool[..]) == i + FirstFree(pool[i..])
      {
        if !pool[i].inUse { return; }
        assert pool[i..][1..] == pool[i + 1..];
        i := i + 1;
      }
    }

    /** zenbedded_transport_declare_publisher.  The entry is claimed first and given back on
        every failure. */
    method DeclarePub(a: Answer) returns (handle: Option<nat>)
      requires pubPool != subPool
      modifies this, pubPool
      ensures (Abs(), handle) == DeclarePublisher(old(Abs()), a) && lockDepth == old(lockDepth)
    {
      hide FirstFree;
      Lock();
      if !isInitialized {
        Unlock();
        return None;
      }
      var i := FindFree(pubPool);
      if i == pubPool.Length {
        Unlock();
        return None;
      }
      pubPool[i] := pubPool[i].(inUse := true);
      if (tier1 && !a.typeKnown) || !a.declared {
        pubPool[i] := pubPool[i].(inUse := false);
        assert pubPool[..] == old(pubPool[..]);
        Unlock();
        return None;
      }
      var entity, token := NewPair(a);
      pubPool[i] := pubPool[i].(entity := entity, token := token,
                                sequenceNumber := if tier1 then 0 else pubPool[i].sequenceNumber);
      assert pubPool[..] == old(pubPool[..])[i := pubPool[i]];
      Unlock();
      return Some(i);
    }

    /** zenbedded_transport_declare_subscriber */
    method DeclareSub(a: Answer, callback: nat) returns (handle: Option<nat>)
      requires pubPool != subPool
      modifies this, subPool
      ensures (Abs(), handle) == DeclareSubscriber(old(Abs()), a, callback) && lockDepth == old(lockDepth)
    {
      hide FirstFree;
      Lock();
      if !isInitialized {
        Unlock();
        return None;
      }
      var i := FindFree(subPool);
      if i == subPool.Length {
        Unlock();
        return None;
      }
      subPool[i] := subPool[i].(inUse := true);
      subPool[i] := subPool[i].(callback := callback);
      if (tier1 && !a.typeKnown) || !a.declared {
        subPool[i] := subPool[i].(inUse := false);
        assert subPool[..] == old(subPool[..])[i := subPool[i]];
        Unlock();
        return None;
      }
      var entity, token := NewPair(a);
      subPool[i] := subPool[i].(entity := entity, token := token);
      assert subPool[..] == old(subPool[..])[i := subPool[i]];
      Unlock();
      return Some(i);
    }

    /** zenbedded_transport_undeclare_publisher; takes the mutex again when destroy calls it. */
    method UndeclarePub(i: nat) returns (ret: int)
      requires pubPool != subPool
      modifies this`live, this`undeclared, this`lockDepth, pubPool
      ensures (Abs(), ret) == UndeclarePublisher(old(Abs()), i) && lockDepth == old(lockDepth)
    {
      if i >= pubPool.Length { return -EINVAL; }
      Lock();
      if !isInitialized || !pubPool[i].inUse {
        Unlock();
        return -EINVAL;
      }
      DropToken(pubPool[i].token);
      DropEntity(pubPool[i].entity);
      pubPool[i] := pubPool[i].(inUse := false);
      Unlock();
      return 0;
    }

    method UndeclareSub(i: nat) returns (ret: int)
      requires pubPool != subPool
      modifies this`live, this`undeclared, this`lockDepth, subPool
      ensures (Abs(), ret) == UndeclareSubscriber(old(Abs()), i) && lockDepth == old(lockDepth)
    {
      if i >= subPool.Length { return -EINVAL; }
      Lock();
      if !isInitialized || !subPool[i].inUse {
        Unlock();
        return -EINVAL;
      }
      DropToken(subPool[i].token);
      DropEntity(subPool[i].entity);
      subPool[i] := subPool[i].(inUse := false);
      Unlock();
      return 0;
    }

    method UndeclarePubs()
      requires pubPool != subPool
      modifies this`live, this`undeclared, this`lockDepth, pubPool
      ensures Abs() == UndeclarePublishers(old(Abs()), pubPool.Length) && lockDepth == old(lockDepth)
    {
      for i := 0 to pubPool.Length
        invariant lockDepth == old(lockDepth) && Abs() == UndeclarePublishers(old(Abs()), i)
      {
        if pubPool[i].inUse { var _ := UndeclarePub(i); }
      }
    }

    method UndeclareSubs()
      requires pubPool != subPool
      modifies this`live, this`undeclared, this`lockDepth, subPool
      ensures Abs() == UndeclareSubscribers(old(Abs()), subPool.Length) && lockDepth == old(lockDepth)
    {
      for i := 0 to subPool.Length
        invariant lockDepth == old(lockDepth) && Abs() == UndeclareSubscribers(old(Abs()), i)
      {
        if subPool[i].inUse { var _ := UndeclareSub(i); }
      }
    }

    /** Everything still declared is undeclared and the session closed. */
    method CloseDown()
      requires pubPool != subPool
      modifies this, pubPool, subPool
      ensures Abs() == TearDown(old(Abs())) && lockDepth == old(lockDepth)
    {
      hide UndeclarePublishers, UndeclareSubscribers, UndeclareToken;
      UndeclarePubs();
      UndeclareSubs();
      DropToken(nodeToken);
      nodeToken := None;
      sessionOpen := false;
      isInitialized := false;
    }

    /** zenbedded_transport_destroy: the last reference takes everything down. */
    method Shutdown()
      requires pubPool != subPool
      modifies this, pubPool, subPool
      ensures Abs() == Destroy(old(Abs())) && lockDepth == old(lockDepth)
    {
      Lock();
      if !isInitialized || refCount == 0 {
        Unlock();
        return;
      }
      refCount := refCount - 1;
      if refCount > 0 {
        Unlock();
        return;
      }
      hide TearDown;
      CloseDown();
      Unlock();
    }

    /** zenbedded_transport_publish */
    method PublishOn(i: nat, payload: seq<byte>, accepted: bool) returns (ret: int)
      requires pubPool != subPool
      modifies this`puts, pubPool
      ensures (Abs(), ret) == Publish(old(Abs()), i, payload, accepted)
      ensures old(i < pubPool.Length && pubPool[i].inUse) ==>
                && puts == old(puts) + [Put(pubPool[i].entity, pubPool[i].sequenceNumber, payload)]
                && pubPool[i].sequenceNumber == old(pubPool[i].sequenceNumber) + (if tier1 then 1 else 0)
                && ret == if accepted then 0 else -1
      ensures !old(i < pubPool.Length && pubPool[i].inUse) ==> puts == old(puts) && ret == -1
    {
      if i >= pubPool.Length || !pubPool[i].inUse { return -1; }
      if tier1 {
        pubPool[i] := pubPool[i].(sequenceNumber := pubPool[i].sequenceNumber + 1);
      }
      puts := puts + [Put(pubPool[i].entity, pubPool[i].sequenceNumber, payload)];
      assert pubPool[..] == old(pubPool[..])[i := pubPool[i]];
      return if accepted then 0 else -1;
    }

    /** One call from outside. */
    method Serve(op: Op)
      requires pubPool != subPool
      modifies this, pubPool, subPool
      ensures Abs() == Apply(old(Abs()), op) && lockDepth == old(lockDepth)
    {
      hide Init, Destroy, DeclarePublisher, DeclareSubscriber, UndeclarePublisher, UndeclareSubscriber, Publish;
      match op {
        case OpInit(sessionOk, tokenDeclared) => var _ := Initialize(sessionOk, tokenDeclared);
        case OpDestroy => Shutdown();
        case OpDeclarePublisher(a) => var _ := DeclarePub(a);
        case OpDeclareSubscriber(a, callback) => var _ := DeclareSub(a, callback);
        case OpUndeclarePublisher(handle) => var _ := UndeclarePub(handle);
        case OpUndeclareSubscriber(handle) => var _ := UndeclareSub(handle);
        case OpPublish(handle, payload, accepted) => var _ := PublishOn(handle, payload, accepted);
      }
    }
  }

  /** A whole life of the transport: after any calls from static storage on, whatever they answered, the
      mutex is free, the fields are those of the model after the same calls, and every entity is
      accounted for. */
  method Live(tier1: bool, maxPublishers: nat, maxSubscribers: nat, ops: seq<Op>) returns (t: Service)
    ensures fresh(t) && t.lockDepth == 0
    ensures t.Abs() == Run(Boot(tier1, maxPublishers, maxSubscribers), ops) && Consistent(t.Abs())
  {
    hide Apply, Consistent;
    t := new Service(tier1, maxPublishers, maxSubscribers);
    ghost var boot := t.Abs();
    for i := 0 to |ops|
      invariant fresh(t) && fresh(t.pubPool) && fresh(t.subPool) && t.pubPool != t.subPool
      invariant t.lockDepth == 0 && t.Abs() == Run(boot, ops[..i])
    {
      t.Serve(ops[i]);
      assert ops[..i + 1][..i] == ops[..i];
    }
    assert ops[..|ops|] == ops;
    RunConsistent(tier1, maxPublishers, maxSubscribers, ops);
  }
}
