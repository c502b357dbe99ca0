/** The pessimistic lock scripts as atomic steps of one node.
    Each script is a function on the keyspace; the methods run the scripts' loops in
    place on a node and are proved to compute those functions. */
module LockScripts {
  import opened Wrappers
  import opened Keyspace

  /** `ScriptError`: Redis rejects `PX` with a ttl that is not positive. */
  datatype Reply = Replied(n: nat) | ScriptError

  predicate Owns(s: Store, now: int, k: string, id: string) {
    Get(s, now, k) == Some(Text(id))
  }

  /** The key is live and another identifier holds it. */
  predicate HeldByOther(s: Store, now: int, k: string, id: string) {
    Live(s, now, k) && s[k].value != Text(id)
  }

  predicate AnyHeldByOther(s: Store, now: int, keys: seq<string>, id: string) {
    exists k :: k in keys && HeldByOther(s, now, k, id)
  }

  predicate OwnsAll(s: Store, now: int, keys: seq<string>, id: string) {
    forall k :: k in keys ==> Owns(s, now, k, id)
  }

  // ---- What the scripts compute -----------------------------------------------------

  function LockKey(s: Store, k: string, id: string, deadline: int, data: string): Store {
    var t := s[k := Entry(Text(id), deadline)];
    if data == "" then t else t[k + DATA := Entry(Text(data), deadline)]
  }

  function LockKeys(s: Store, keys: seq<string>, id: string, deadline: int, data: string): Store {
    if keys == [] then s
    else LockKey(LockKeys(s, keys[..|keys| - 1], id, deadline, data), keys[|keys| - 1], id, deadline, data)
  }

  function Acquire(s: Store, now: int, keys: seq<string>, id: string, ttl: int, data: string): (Store, Reply) {
    if AnyHeldByOther(s, now, keys, id) then (s, Replied(0))
    else if ttl <= 0 && keys != [] then (s, ScriptError)
    else (LockKeys(s, keys, id, now + ttl, data), Replied(|keys|))
  }

  function ExtendKey(s: Store, now: int, k: string, id: string, deadline: int): Store {
    var t := s[k := Entry(Text(id), deadline)];
    if Live(t, now, k + DATA) then t[k + DATA := t[k + DATA].(deadline := deadline)] else t
  }

  function ExtendKeys(s: Store, now: int, keys: seq<string>, id: string, deadline: int): Store {
    if keys == [] then s
    else ExtendKey(ExtendKeys(s, now, keys[..|keys| - 1], id, deadline), now, keys[|keys| - 1], id, deadline)
  }

  function Extend(s: Store, now: int, keys: seq<string>, id: string, ttl: int): (Store, Reply) {
    if !OwnsAll(s, now, keys, id) then (s, Replied(0))
    else if ttl <= 0 && keys != [] then (s, ScriptError)
    else (ExtendKeys(s, now, keys, id, now + ttl), Replied(|keys|))
  }

  /** The keyspace after releasing keys, and how many of them were released. */
  function Release(s: Store, now: int, keys: seq<string>, id: string): (r: (Store, nat))
    ensures r.1 <= |keys|
  {
    if keys == [] then (s, 0)
    else
      var (t, n) := Release(s, now, keys[..|keys| - 1], id);
      var k := keys[|keys| - 1];
      if Owns(t, now, k, id) then (t - {k, k + DATA}, n + 1) else (t, n)
  }

  // ---- The scripts, run in place on a node ------------------------------------------

  method RunAcquire(node: RedisNode, keys: seq<string>, id: string, ttl: int, data: string) returns (reply: Reply)
    modifies node`store
    ensures (node.store, reply) == Acquire(old(node.store), node.clock, keys, id, ttl, data)
  {
    for i := 0 to |keys|
      invariant forall j :: 0 <= j < i ==> !HeldByOther(node.store, node.clock, keys[j], id)
    {
      var current := Get(node.store, node.clock, keys[i]);
      if current.Some? && current.value != Text(id) {
        assert keys[i] in keys;
        return Replied(0);
      }
    }
    if ttl <= 0 && keys != [] {
      return ScriptError;
    }
    for i := 0 to |keys|
      invariant node.store == LockKeys(old(node.store), keys[..i], id, node.clock + ttl, data)
    {
      node.store := node.store[keys[i] := Entry(Text(id), node.clock + ttl)];
      if data != "" {
        var dataKey := keys[i] + DATA;
        node.store := node.store[dataKey := Entry(Text(data), node.clock + ttl)];
      }
      assert keys[..i + 1][..i] == keys[..i];
    }
    assert keys[..|keys|] == keys;
    return Replied(|keys|);
  }

  method RunExtend(node: RedisNode, keys: seq<string>, id: string, ttl: int) returns (reply: Reply)
    modifies node`store
    ensures (node.store, reply) == Extend(old(node.store), node.clock, keys, id, ttl)
  {
    for i := 0 to |keys|
      invariant forall j :: 0 <= j < i ==> Owns(node.store, node.clock, keys[j], id)
    {
      var current := Get(node.store, node.clock, keys[i]);
      if current != Some(Text(id)) {
        assert keys[i] in keys;
        return Replied(0);
      }
    }
    if ttl <= 0 && keys != [] {
      return ScriptError;
    }
    for i := 0 to |keys|
      invariant node.store == ExtendKeys(old(node.store), node.clock, keys[..i], id, node.clock + ttl)
    {
      node.store := node.store[keys[i] := Entry(Text(id), node.clock + ttl)];
      var dataKey := keys[i] + DATA;
      if Live(node.store, node.clock, dataKey) {
        node.store := node.store[dataKey := node.store[dataKey].(deadline := node.clock + ttl)];
      }
      assert keys[..i + 1][..i] == keys[..i];
    }
    assert keys[..|keys|] == keys;
    return Replied(|keys|);
  }

  method RunRelease(node: RedisNode, keys: seq<string>, id: string) returns (released: nat)
    modifies node`store
    ensures (node.store, released) == Release(old(node.store), node.clock, keys, id)
  {
    released := 0;
    for i := 0 to |keys|
      invariant (node.store, released) == Release(old(node.store), node.clock, keys[..i], id)
    {
      var current := Get(node.store, node.clock, keys[i]);
      if current == Some(Text(id)) {
        node.store := node.store - {keys[i], keys[i] + DATA};
        released := released + 1;
      }
      assert keys[..i + 1][..i] == keys[..i];
    }
    assert keys[..|keys|] == keys;
  }

  // ---- All-or-nothing and ownership -------------------------------------------------

  /** LockKey and ExtendKey write nothing at other plain keys. */
  lemma KeyWrites(s: Store, now: int, last: string, id: string, deadline: int, data: string, k: string)
    requires Plain(k)
    ensures var t := LockKey(s, last, id, deadline, data);
            if k == last then k in t && t[k] == Entry(Text(id), deadline)
            else (k in t <==> k in s) && (k in s ==> t[k] == s[k])
    ensures var t := ExtendKey(s, now, last, id, deadline);
            if k == last then k in t && t[k] == Entry(Text(id), deadline)
            else (k in t <==> k in s) && (k in s ==> t[k] == s[k])
  {
    Derived(last, DATA);
  }

  lemma {:induction false} LockKeysAt(s: Store, keys: seq<string>, id: string, deadline: int, data: string, k: string)
    requires Plain(k)
    ensures var t := LockKeys(s, keys, id, deadline, data);
            if k in keys then k in t && t[k] == Entry(Text(id), deadline)
            else (k in t <==> k in s) && (k in s ==> t[k] == s[k])
  {
    hide Plain, LockKey, ExtendKey;
    if keys != [] {
      var i := |keys| - 1;
      LockKeysAt(s, keys[..i], id, deadline, data, k);
      KeyWrites(LockKeys(s, keys[..i], id, deadline, data), 0, keys[i], id, deadline, data, k);
      assert keys == keys[..i] + [keys[i]];
    }
  }

  lemma {:induction false} ExtendKeysAt(s: Store, now: int, keys: seq<string>, id: string, deadline: int, k: string)
    requires Plain(k)
    ensures var t := ExtendKeys(s, now, keys, id, deadline);
            if k in keys then k in t && t[k] == Entry(Text(id), deadline)
            else (k in t <==> k in s) && (k in s ==> t[k] == s[k])
  {
    hide Plain, LockKey, ExtendKey;
    if keys != [] {
      var i := |keys| - 1;
      ExtendKeysAt(s, now, keys[..i], id, deadline, k);
      KeyWrites(ExtendKeys(s, now, keys[..i], id, deadline), now, keys[i], id, deadline, "", k);
      assert keys == keys[..i] + [keys[i]];
    }
  }

  lemma {:induction false} ReleaseAt(s: Store, now: int, keys: seq<string>, id: string, k: string)
    requires Plain(k)
    ensures var t := Release(s, now, keys, id).0;
            if k in keys && Owns(s, now, k, id) then k !in t
            else (k in t <==> k in s) && (k in s ==> t[k] == s[k])
  {
    hide Plain, EndsWith;
    if keys != [] {
      var i := |keys| - 1;
      ReleaseAt(s, now, keys[..i], id, k);
      Derived(keys[i], DATA);
      assert keys == keys[..i] + [keys[i]];
    }
  }

  /** Acquire takes every key or changes nothing, and succeeds exactly when no key is held
      by another identifier. */
  lemma AcquireAllOrNothing(s: Store, now: int, keys: seq<string>, id: string, ttl: int, data: string)
    requires AllPlain(keys) && ttl > 0
    ensures var (t, reply) := Acquire(s, now, keys, id, ttl, data);
            if forall k :: k in keys ==> !HeldByOther(s, now, k, id)
            then reply == Replied(|keys|)
                 && (forall k :: k in keys ==> k in t && t[k] == Entry(Text(id), now + ttl))
                 && (forall k :: Plain(k) && k !in keys ==> (k in t <==> k in s) && (k in s ==> t[k] == s[k]))
            else reply == Replied(0) && t == s
  {
    forall k | Plain(k)
      ensures var t := LockKeys(s, keys, id, now + ttl, data);
              if k in keys then k in t && t[k] == Entry(Text(id), now + ttl)
              else (k in t <==> k in s) && (k in s ==> t[k] == s[k])
    {
      LockKeysAt(s, keys, id, now + ttl, data, k);
    }
  }

  /** Extend moves the deadline of every key or of none; it never makes a key owned that
      was not. */
  lemma ExtendAllOrNothing(s: Store, now: int, keys: seq<string>, id: string, ttl: int)
    requires AllPlain(keys) && ttl > 0
    ensures var (t, reply) := Extend(s, now, keys, id, ttl);
            if forall k :: k in keys ==> Owns(s, now, k, id)
            then reply == Replied(|keys|)
                 && (forall k :: k in keys ==> k in t && t[k] == Entry(Text(id), now + ttl))
                 && (forall k :: Plain(k) && k !in keys ==> (k in t <==> k in s) && (k in s ==> t[k] == s[k]))
            else reply == Replied(0) && t == s
    ensures var t := Extend(s, now, keys, id, ttl).0;
            forall k, other :: Plain(k) && Owns(t, now, k, other) ==> Owns(s, now, k, other)
  {
    forall k | Plain(k)
      ensures var t := ExtendKeys(s, now, keys, id, now + ttl);
              if k in keys then k in t && t[k] == Entry(Text(id), now + ttl)
              else (k in t <==> k in s) && (k in s ==> t[k] == s[k])
    {
      ExtendKeysAt(s, now, keys, id, now + ttl, k);
    }
  }

  /** No lock script alters a live lock key that another identifier owns. */
  lemma ForeignLocksUntouched(s: Store, now: int, keys: seq<string>, id: string, ttl: int, data: string, k: string)
    requires AllPlain(keys) && Plain(k) && HeldByOther(s, now, k, id)
    ensures var t := Acquire(s, now, keys, id, ttl, data).0; k in t && t[k] == s[k]
    ensures var t := Extend(s, now, keys, id, ttl).0; k in t && t[k] == s[k]
    ensures var t := Release(s, now, keys, id).0; k in t && t[k] == s[k]
  {
    hide Plain, EndsWith, LockKeys, ExtendKeys, Release;
    LockKeysAt(s, keys, id, now + ttl, data, k);
    ExtendKeysAt(s, now, keys, id, now + ttl, k);
    ReleaseAt(s, now, keys, id, k);
  }

  lemma {:induction false} DataKeyAt(s: Store, now: int, keys: seq<string>, id: string, deadline: int, data: string,
                                     k: string)
    requires AllPlain(keys) && now <= deadline
    ensures var t := LockKeys(s, keys, id, deadline, data); var d := k + DATA;
            if k in keys && data != "" then d in t && t[d] == Entry(Text(data), deadline)
            else (d in t <==> d in s) && (d in s ==> t[d] == s[d])
    ensures var t := ExtendKeys(s, now, keys, id, deadline); var d := k + DATA;
            if k in keys && Live(s, now, d) then d in t && t[d] == Entry(s[d].value, deadline)
            else (d in t <==> d in s) && (d in s ==> t[d] == s[d])
  {
    Derived(k, DATA);
    if keys != [] {
      var i := |keys| - 1;
      var last := keys[i];
      DataKeyAt(s, now, keys[..i], id, deadline, data, k);
      assert keys == keys[..i] + [last];
      if k + DATA == last + DATA {
        DerivedInjective(k, last, DATA);
      }
    }
  }

  /** Data stored with a lock shares the lock's deadline: when an acquire stores it, and after
      every extension that finds it still there. Without new data the old is left alone, and an
      extension brings nothing back. */
  lemma DataFollowsLock(s: Store, now: int, keys: seq<string>, id: string, ttl: int, data: string, k: string)
    requires AllPlain(keys) && k in keys && ttl > 0
    ensures var (t, reply) := Acquire(s, now, keys, id, ttl, data); var d := k + DATA;
            reply == Replied(|keys|) ==>
              && k in t && t[k].deadline == now + ttl
              && (if data != "" then d in t && t[d] == Entry(Text(data), t[k].deadline)
                  else (d in t <==> d in s) && (d in s ==> t[d] == s[d]))
    ensures var (t, reply) := Extend(s, now, keys, id, ttl); var d := k + DATA;
            reply == Replied(|keys|) ==>
              && k in t && t[k].deadline == now + ttl
              && (if Live(s, now, d) then d in t && t[d] == Entry(s[d].value, t[k].deadline) else !Live(t, now, d))
  {
    hide LockKeys, ExtendKeys, Plain, AnyHeldByOther, OwnsAll;
    assert |keys| > 0 && Plain(k);
    LockKeysAt(s, keys, id, now + ttl, data, k);
    ExtendKeysAt(s, now, keys, id, now + ttl, k);
    DataKeyAt(s, now, keys, id, now + ttl, data, k);
  }

  /** A granted acquire or extension is worth its ttl and not a millisecond more. */
  lemma LockLivesExactly(s: Store, now: int, keys: seq<string>, id: string, ttl: int, data: string, k: string, later: int)
    requires AllPlain(keys) && k in keys && ttl > 0
    ensures var (t, reply) := Acquire(s, now, keys, id, ttl, data);
            reply == Replied(|keys|) ==> Get(t, later, k) == if later <= now + ttl then Some(Text(id)) else None
    ensures var (t, reply) := Extend(s, now, keys, id, ttl);
            reply == Replied(|keys|) ==> Get(t, later, k) == if later <= now + ttl then Some(Text(id)) else None
  {
    hide LockKeys, ExtendKeys, Plain;
    AcquireAllOrNothing(s, now, keys, id, ttl, data);
    ExtendAllOrNothing(s, now, keys, id, ttl);
  }

  /** A plain key is still owned after releasing others unless it was among them. */
  lemma Owned(s: Store, now: int, keys: seq<string>, id: string, k: string)
    requires AllPlain(keys) && Plain(k)
    ensures Owns(Release(s, now, keys, id).0, now, k, id) <==> Owns(s, now, k, id) && k !in keys
  {
    ReleaseAt(s, now, keys, id, k);
  }

  /** The owned keys of a request, with one more key at its end. */
  lemma OwnedSnoc(s: Store, now: int, front: seq<string>, k: string, id: string)
    ensures var before := set x | x in front && Owns(s, now, x, id);
            (set x | x in front + [k] && Owns(s, now, x, id)) == if Owns(s, now, k, id) then before + {k} else before
  {
    hide Owns;
  }

  lemma {:induction false} ReleaseCounts(s: Store, now: int, keys: seq<string>, id: string)
    requires AllPlain(keys)
    ensures Release(s, now, keys, id).1 == |set k | k in keys && Owns(s, now, k, id)|
  {
    if keys == [] {
      assert (set k | k in keys && Owns(s, now, k, id)) == {};
    } else {
      var i := |keys| - 1;
      var front, k := keys[..i], keys[i];
      var (t, n) := Release(s, now, front, id);
      var before := set x | x in front && Owns(s, now, x, id);
      ReleaseCounts(s, now, front, id);
      Owned(s, now, front, id, k);
      assert Release(s, now, keys, id).1 == if Owns(t, now, k, id) then n + 1 else n;
      hide *;
      assert keys == front + [k];
      OwnedSnoc(s, now, front, k, id);
      if k in front && Owns(s, now, k, id) {
        assert k in before;
        assert before + {k} == before;
      }
    }
  }

  /** Which keys a release deletes: exactly the requested keys that `id` owns and the data
      keys derived from them. */
  lemma {:induction false} ReleaseDomain(s: Store, now: int, keys: seq<string>, id: string, k: string)
    requires AllPlain(keys) && k in s
    ensures var t := Release(s, now, keys, id).0;
            k in t <==> forall x :: x in keys && Owns(s, now, x, id) ==> k != x && k != x + DATA
    ensures var t := Release(s, now, keys, id).0; k in t ==> t[k] == s[k]
  {
    if keys != [] {
      var i := |keys| - 1;
      var front, last := keys[..i], keys[i];
      ReleaseDomain(s, now, front, id, k);
      ReleaseAt(s, now, front, id, last);
      assert keys == front + [last];
      Owned(s, now, front, id, last);
    }
  }

  /** Releasing can destroy a live key of another owner, and exactly then: when that key is
      named like the data key of a lock being released. */
  lemma ReleaseDestroysForeignKey(s: Store, now: int, keys: seq<string>, id: string, k: string)
    requires AllPlain(keys) && HeldByOther(s, now, k, id)
    ensures k !in Release(s, now, keys, id).0
       <==> exists x :: x in keys && Owns(s, now, x, id) && k == x + DATA
  {
    ReleaseDomain(s, now, keys, id, k);
  }

  /** A resource called "a:data" loses its lock when somebody else releases "a". */
  lemma ForeignLockNamedLikeData()
    ensures var s := map["a" := Entry(Text("me"), 9), "a:data" := Entry(Text("other"), 9)];
            HeldByOther(s, 0, "a:data", "me") && "a:data" !in Release(s, 0, ["a"], "me").0
  {
    var s: Store := map["a" := Entry(Text("me"), 9), "a:data" := Entry(Text("other"), 9)];
    assert "a" + DATA == "a:data";
    assert "a" in ["a"] && Owns(s, 0, "a", "me");
    assert !EndsWith("a", DATA) && !EndsWith("a", VERSION) && !EndsWith("a", VALUE);
    ReleaseDestroysForeignKey(s, 0, ["a"], "me", "a:data");
  }

  /** A ttl that is not positive never changes anything: the first SET of the script fails. It is
      an error exactly where a positive ttl would have been granted. */
  lemma NonPositiveTtlChangesNothing(s: Store, now: int, keys: seq<string>, id: string, ttl: int, data: string)
    requires ttl <= 0 && keys != []
    ensures Acquire(s, now, keys, id, ttl, data).0 == s == Extend(s, now, keys, id, ttl).0
    ensures Acquire(s, now, keys, id, ttl, data).1
         == if forall k :: k in keys ==> !HeldByOther(s, now, k, id) then ScriptError else Replied(0)
    ensures Extend(s, now, keys, id, ttl).1
         == if forall k :: k in keys ==> Owns(s, now, k, id) then ScriptError else Replied(0)
  {
    hide HeldByOther, Owns;
  }
}
