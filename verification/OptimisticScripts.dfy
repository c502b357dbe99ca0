/** The toolkit's versioned lock scripts: acquire and update guarded by a version number
    kept beside every lock key. */
module OptimisticScripts {
  import opened Wrappers
  import opened Keyspace
  import opened LockScripts

  datatype Reason = Locked | VersionMismatch | ValueMismatch | VersionRequired | NotOwner

  datatype OptReply =
    | Conflict(version: int, reason: Reason)
    | Granted(newVersion: int, count: nat)
    | Rejected  // Redis refuses a ttl that is not positive

  /** `currentVersion and tonumber(currentVersion) or 0` */
  function VersionOrZero(s: Store, now: int, k: string): int {
    match Get(s, now, k + VERSION)
    case Some(Number(n)) => n
    case _ => 0
  }

  /** The version stored for k, when it is a number. */
  function StoredVersion(s: Store, now: int, k: string): Option<int> {
    match Get(s, now, k + VERSION)
    case Some(Number(n)) => Some(n)
    case _ => None
  }

  // ---- What the scripts compute -----------------------------------------------------

  function AcquireConflict(s: Store, now: int, k: string, id: string, expected: Option<int>, value: string)
    : Option<OptReply>
  {
    if HeldByOther(s, now, k, id) then Some(Conflict(VersionOrZero(s, now, k), Locked))
    else if expected.Some? && StoredVersion(s, now, k).Some? && StoredVersion(s, now, k) != expected
    then Some(Conflict(StoredVersion(s, now, k).value, VersionMismatch))
    else if value != "" && Live(s, now, k + VALUE) && s[k + VALUE].value != Text(value)
    then Some(Conflict(VersionOrZero(s, now, k), ValueMismatch))
    else None
  }

  function UpdateConflict(s: Store, now: int, k: string, id: string, expected: int): Option<OptReply> {
    if !Owns(s, now, k, id) then Some(Conflict(VersionOrZero(s, now, k), NotOwner))
    else if StoredVersion(s, now, k).Some? && StoredVersion(s, now, k) != Some(expected)
    then Some(Conflict(StoredVersion(s, now, k).value, VersionMismatch))
    else None
  }

  function VersionRequiredBy(s: Store, now: int, k: string): Option<OptReply> {
    if Live(s, now, k + VERSION) then Some(Conflict(VersionOrZero(s, now, k), VersionRequired)) else None
  }

  /** The first key, in request order, on which `check` reports a conflict. */
  function First(keys: seq<string>, check: string -> Option<OptReply>): Option<OptReply> {
    if keys == [] then None
    else
      var earlier := First(keys[..|keys| - 1], check);
      if earlier.Some? then earlier else check(keys[|keys| - 1])
  }

  function WriteKey(s: Store, k: string, id: string, version: int, value: string, deadline: int): Store {
    var t := s[k := Entry(Text(id), deadline)][k + VERSION := Entry(Number(version), deadline)];
    if value == "" then t else t[k + VALUE := Entry(Text(value), deadline)]
  }

  function WriteKeys(s: Store, keys: seq<string>, id: string, version: int, value: string, deadline: int): Store {
    if keys == [] then s
    else WriteKey(WriteKeys(s, keys[..|keys| - 1], id, version, value, deadline), keys[|keys| - 1],
                  id, version, value, deadline)
  }

  function OptimisticAcquire(s: Store, now: int, keys: seq<string>, id: string, ttl: int,
                             expected: Option<int>, value: string): (Store, OptReply)
  {
    var conflict := First(keys, k => AcquireConflict(s, now, k, id, expected, value));
    var missing := First(keys, k => VersionRequiredBy(s, now, k));
    if conflict.Some? then (s, conflict.value)
    else if expected.None? && missing.Some? then (s, missing.value)
    else if ttl <= 0 && keys != [] then (s, Rejected)
    else
      var version := (if expected.Some? then expected.value else 0) + 1;
      (WriteKeys(s, keys, id, version, value, now + ttl), Granted(version, |keys|))
  }

  function OptimisticUpdate(s: Store, now: int, keys: seq<string>, id: string, ttl: int,
                            expected: int, value: string): (Store, OptReply)
  {
    var conflict := First(keys, k => UpdateConflict(s, now, k, id, expected));
    if conflict.Some? then (s, conflict.value)
    else if ttl <= 0 && keys != [] then (s, Rejected)
    else (WriteKeys(s, keys, id, expected + 1, value, now + ttl), Granted(expected + 1, |keys|))
  }

  // ---- The scripts, run in place on a node ------------------------------------------

  lemma {:induction false} FirstAt(keys: seq<string>, i: nat, check: string -> Option<OptReply>)
    requires i < |keys| && First(keys[..i], check).None? && check(keys[i]).Some?
    ensures First(keys, check) == check(keys[i])
    decreases |keys|
  {
    var k := |keys| - 1;
    assert keys[..i + 1][..i] == keys[..i];
    if i < k {
      assert keys[..k][..i] == keys[..i];
      FirstAt(keys[..k], i, check);
    }
  }

  /** The writing loop that ends both scripts. */
  method WriteAll(node: RedisNode, keys: seq<string>, id: string, version: int, value: string, ttl: int)
    modifies node`store
    ensures node.store == WriteKeys(old(node.store), keys, id, version, value, node.clock + ttl)
  {
    for i := 0 to |keys|
      invariant node.store == WriteKeys(old(node.store), keys[..i], id, version, value, node.clock + ttl)
    {
      node.store := node.store[keys[i] := Entry(Text(id), node.clock + ttl)];
      node.store := node.store[keys[i] + VERSION := Entry(Number(version), node.clock + ttl)];
      if value != "" {
        node.store := node.store[keys[i] + VALUE := Entry(Text(value), node.clock + ttl)];
      }
      assert keys[..i + 1][..i] == keys[..i];
    }
    assert keys[..|keys|] == keys;
  }

  method RunOptimisticAcquire(node: RedisNode, keys: seq<string>, id: string, ttl: int,
                              expected: Option<int>, value: string) returns (reply: OptReply)
    modifies node`store
    ensures (node.store, reply) == OptimisticAcquire(old(node.store), node.clock, keys, id, ttl, expected, value)
  {
    hide AcquireConflict, VersionRequiredBy, WriteKeys;
    var s, now := node.store, node.clock;
    ghost var check := k => AcquireConflict(s, now, k, id, expected, value);
    for i := 0 to |keys|
      invariant First(keys[..i], check).None?
    {
      var conflict := AcquireConflict(node.store, node.clock, keys[i], id, expected, value);
      if conflict.Some? {
        FirstAt(keys, i, check);
        return conflict.value;
      }
      assert keys[..i + 1][..i] == keys[..i];
    }
    assert keys[..|keys|] == keys;
    var baseVersion := 0;
    if expected.Some? {
      baseVersion := expected.value;
    } else {
      ghost var missing := k => VersionRequiredBy(s, now, k);
      for i := 0 to |keys|
        invariant First(keys[..i], missing).None?
      {
        var conflict := VersionRequiredBy(node.store, node.clock, keys[i]);
        if conflict.Some? {
          FirstAt(keys, i, missing);
          return conflict.value;
        }
        assert keys[..i + 1][..i] == keys[..i];
      }
    }
    if ttl <= 0 && keys != [] {
      return Rejected;
    }
    WriteAll(node, keys, id, baseVersion + 1, value, ttl);
    return Granted(baseVersion + 1, |keys|);
  }

  method RunOptimisticUpdate(node: RedisNode, keys: seq<string>, id: string, ttl: int,
                             expected: int, value: string) returns (reply: OptReply)
    modifies node`store
    ensures (node.store, reply) == OptimisticUpdate(old(node.store), node.clock, keys, id, ttl, expected, value)
  {
    hide UpdateConflict, WriteKeys;
    var s, now := node.store, node.clock;
    ghost var check := k => UpdateConflict(s, now, k, id, expected);
    for i := 0 to |keys|
      invariant First(keys[..i], check).None?
    {
      var conflict := UpdateConflict(node.store, node.clock, keys[i], id, expected);
      if conflict.Some? {
        FirstAt(keys, i, check);
        return conflict.value;
      }
      assert keys[..i + 1][..i] == keys[..i];
    }
    assert keys[..|keys|] == keys;
    if ttl <= 0 && keys != [] {
      return Rejected;
    }
    WriteAll(node, keys, id, expected + 1, value, ttl);
    return Granted(expected + 1, |keys|);
  }

  // ---- All-or-nothing, ownership and strictly rising versions ------------------------

  lemma {:induction false} FirstNone(keys: seq<string>, check: string -> Option<OptReply>)
    ensures First(keys, check).None? <==> forall k :: k in keys ==> check(k).None?
  {
    if keys != [] {
      var i := |keys| - 1;
      FirstNone(keys[..i], check);
      assert keys == keys[..i] + [keys[i]];
    }
  }

  lemma {:induction false} FirstIsConflict(keys: seq<string>, check: string -> Option<OptReply>)
    requires forall k :: check(k).Some? ==> check(k).value.Conflict?
    ensures First(keys, check).Some? ==> First(keys, check).value.Conflict?
  {
    if keys != [] {
      FirstIsConflict(keys[..|keys| - 1], check);
    }
  }

  /** What WriteKeys leaves at a lock key k and at its version key. */
  lemma {:induction false} WriteKeysAt(s: Store, keys: seq<string>, id: string, version: int, value: string,
                                       deadline: int, k: string)
    requires AllPlain(keys) && Plain(k)
    ensures var t := WriteKeys(s, keys, id, version, value, deadline);
            if k in keys
            then k in t && t[k] == Entry(Text(id), deadline)
                 && k + VERSION in t && t[k + VERSION] == Entry(Number(version), deadline)
            else (k in t <==> k in s) && (k in s ==> t[k] == s[k])
                 && (k + VERSION in t <==> k + VERSION in s)
                 && (k + VERSION in s ==> t[k + VERSION] == s[k + VERSION])
  {
    if keys != [] {
      var i := |keys| - 1;
      var last := keys[i];
      WriteKeysAt(s, keys[..i], id, version, value, deadline, k);
      assert keys == keys[..i] + [last];
      Derived(last, VERSION);
      Derived(last, VALUE);
      Derived(k, VERSION);
      DerivedApart(k, last);
      if k + VERSION == last + VERSION {
        DerivedInjective(k, last, VERSION);
      }
    }
  }

  /** What WriteKeys leaves at a value key: the new value for every key written with one. */
  lemma {:induction false} WriteKeysValueAt(s: Store, keys: seq<string>, id: string, version: int, value: string,
                                            deadline: int, k: string)
    requires AllPlain(keys)
    ensures var t := WriteKeys(s, keys, id, version, value, deadline); var v := k + VALUE;
            if k in keys && value != "" then v in t && t[v] == Entry(Text(value), deadline)
            else (v in t <==> v in s) && (v in s ==> t[v] == s[v])
  {
    Derived(k, VALUE);
    if keys != [] {
      var i := |keys| - 1;
      var last := keys[i];
      WriteKeysValueAt(s, keys[..i], id, version, value, deadline, k);
      assert keys == keys[..i] + [last];
      DerivedApart(last, k);
      if k + VALUE == last + VALUE {
        DerivedInjective(k, last, VALUE);
      }
    }
  }

  /** The effect a versioned script may have: all keys taken at one common version above
      every version they had, or nothing changed; foreign locks never change. */
  ghost predicate VersionedEffect(s: Store, t: Store, now: int, keys: seq<string>, id: string, reply: OptReply) {
    && (reply.Granted? ==>
          && reply.count == |keys|
          && (forall k :: k in keys ==> Owns(t, now, k, id) && StoredVersion(t, now, k) == Some(reply.newVersion))
          && (forall k :: k in keys && StoredVersion(s, now, k).Some? ==>
                StoredVersion(s, now, k).value < reply.newVersion)
          && (forall k :: Plain(k) && k !in keys ==>
                Get(t, now, k) == Get(s, now, k) && StoredVersion(t, now, k) == StoredVersion(s, now, k)))
    && (!reply.Granted? ==> t == s)
    && (forall k :: Plain(k) && HeldByOther(s, now, k, id) ==> k in t && t[k] == s[k])
  }

  lemma WriteEffect(s: Store, now: int, keys: seq<string>, id: string, version: int, value: string, ttl: int)
    requires AllPlain(keys) && (ttl > 0 || keys == [])
    requires forall k :: k in keys ==> !HeldByOther(s, now, k, id)
    requires forall k :: k in keys && StoredVersion(s, now, k).Some? ==> StoredVersion(s, now, k).value < version
    ensures VersionedEffect(s, WriteKeys(s, keys, id, version, value, now + ttl), now, keys, id, Granted(version, |keys|))
  {
    var t := WriteKeys(s, keys, id, version, value, now + ttl);
    forall k | Plain(k)
      ensures k in keys ==> Owns(t, now, k, id) && StoredVersion(t, now, k) == Some(version)
      ensures k !in keys ==> Get(t, now, k) == Get(s, now, k) && StoredVersion(t, now, k) == StoredVersion(s, now, k)
      ensures HeldByOther(s, now, k, id) ==> k in t && t[k] == s[k]
    {
      WriteKeysAt(s, keys, id, version, value, now + ttl, k);
    }
  }

  /** A versioned acquire may take k: nobody else holds it, its value is as expected, and its
      version is the expected one or absent, which it must be when none is expected. */
  predicate MayTake(s: Store, now: int, k: string, id: string, expected: Option<int>, value: string) {
    && !HeldByOther(s, now, k, id)
    && (value == "" || Get(s, now, k + VALUE) in {None, Some(Text(value))})
    && (if expected.None? then !Live(s, now, k + VERSION)
        else StoredVersion(s, now, k) in {None, expected})
  }

  lemma MayTakeIffNoConflict(s: Store, now: int, k: string, id: string, expected: Option<int>, value: string)
    ensures MayTake(s, now, k, id, expected, value) <==>
              && AcquireConflict(s, now, k, id, expected, value).None?
              && (expected.Some? || VersionRequiredBy(s, now, k).None?)
  {
  }

  /** Only a key that conflicts makes a check report anything, and then a conflict. */
  lemma ChecksConflict(s: Store, now: int, keys: seq<string>, id: string, expected: Option<int>, value: string)
    ensures var conflict := First(keys, k => AcquireConflict(s, now, k, id, expected, value));
            && (conflict.None? <==> forall k :: k in keys ==> AcquireConflict(s, now, k, id, expected, value).None?)
            && (conflict.Some? ==> conflict.value.Conflict?)
    ensures var missing := First(keys, k => VersionRequiredBy(s, now, k));
            && (missing.None? <==> forall k :: k in keys ==> VersionRequiredBy(s, now, k).None?)
            && (missing.Some? ==> missing.value.Conflict?)
  {
    hide First;
    var check := k => AcquireConflict(s, now, k, id, expected, value);
    var missing := k => VersionRequiredBy(s, now, k);
    FirstNone(keys, check);
    FirstNone(keys, missing);
    FirstIsConflict(keys, check);
    FirstIsConflict(keys, missing);
  }

  /** Versioned acquire is granted exactly when every key may be taken; else nothing changes. */
  lemma OptimisticAcquireGrant(s: Store, now: int, keys: seq<string>, id: string, ttl: int,
                               expected: Option<int>, value: string)
    requires ttl > 0
    ensures var (t, reply) := OptimisticAcquire(s, now, keys, id, ttl, expected, value);
            if forall k :: k in keys ==> MayTake(s, now, k, id, expected, value)
            then
              var version := (if expected.Some? then expected.value else 0) + 1;
              t == WriteKeys(s, keys, id, version, value, now + ttl) && reply == Granted(version, |keys|)
            else t == s && reply.Conflict?
  {
    hide First, WriteKeys, MayTake, AcquireConflict, VersionRequiredBy;
    ChecksConflict(s, now, keys, id, expected, value);
    forall k | k in keys
      ensures MayTake(s, now, k, id, expected, value) <==>
                && AcquireConflict(s, now, k, id, expected, value).None?
                && (expected.Some? || VersionRequiredBy(s, now, k).None?)
    {
      MayTakeIffNoConflict(s, now, k, id, expected, value);
    }
  }

  /** And then it has the versioned effect. */
  lemma OptimisticAcquireEffect(s: Store, now: int, keys: seq<string>, id: string, ttl: int,
                                expected: Option<int>, value: string)
    requires AllPlain(keys) && ttl > 0
    ensures var (t, reply) := OptimisticAcquire(s, now, keys, id, ttl, expected, value);
            && VersionedEffect(s, t, now, keys, id, reply)
            && (reply.Granted? <==> forall k :: k in keys ==> MayTake(s, now, k, id, expected, value))
  {
    hide Plain, OptimisticAcquire, WriteKeys;
    OptimisticAcquireGrant(s, now, keys, id, ttl, expected, value);
    if forall k :: k in keys ==> MayTake(s, now, k, id, expected, value) {
      hide VersionedEffect;
      WriteEffect(s, now, keys, id, (if expected.Some? then expected.value else 0) + 1, value, ttl);
    }
  }

  /** Versioned update: granted exactly when every key is owned at the expected version. */
  lemma OptimisticUpdateEffect(s: Store, now: int, keys: seq<string>, id: string, ttl: int, expected: int, value: string)
    requires AllPlain(keys) && ttl > 0
    ensures var (t, reply) := OptimisticUpdate(s, now, keys, id, ttl, expected, value);
            && VersionedEffect(s, t, now, keys, id, reply)
            && (reply.Granted? <==> forall k :: k in keys ==>
                  Owns(s, now, k, id) && StoredVersion(s, now, k) in {None, Some(expected)})
  {
    hide Plain, EndsWith, WriteKeys, First;
    var check := k => UpdateConflict(s, now, k, id, expected);
    FirstNone(keys, check);
    FirstIsConflict(keys, check);
    assert First(keys, check).None? <==> forall k :: k in keys ==> check(k).None?;
    if First(keys, check).None? {
      WriteEffect(s, now, keys, id, expected + 1, value, ttl);
    }
  }

  // ---- What a granted script stores ----------------------------------------------------------

  /** The three keys that belong to k. */
  predicate KeyOf(x: string, k: string) {
    x == k || x == k + VERSION || x == k + VALUE
  }

  predicate Unchanged(s: Store, t: Store, x: string) {
    (x in t <==> x in s) && (x in s ==> t[x] == s[x])
  }

  /** k is taken: the lock key under the identifier, its version, and its value when there is
      one, all with the same deadline. */
  predicate StoresKey(s: Store, t: Store, k: string, id: string, version: int, value: string, deadline: int) {
    && k in t && t[k] == Entry(Text(id), deadline)
    && k + VERSION in t && t[k + VERSION] == Entry(Number(version), deadline)
    && (if value != "" then k + VALUE in t && t[k + VALUE] == Entry(Text(value), deadline)
        else Unchanged(s, t, k + VALUE))
  }

  /** Everything a granted script stores, and nothing else. */
  ghost predicate Stores(s: Store, t: Store, keys: seq<string>, id: string, version: int, value: string, deadline: int) {
    && (forall k :: k in keys ==> StoresKey(s, t, k, id, version, value, deadline))
    && (forall x :: (forall k :: k in keys ==> !KeyOf(x, k)) ==> Unchanged(s, t, x))
  }

  lemma {:induction false} WriteKeysFrame(s: Store, keys: seq<string>, id: string, version: int, value: string,
                                          deadline: int, x: string)
    requires forall k :: k in keys ==> !KeyOf(x, k)
    ensures var t := WriteKeys(s, keys, id, version, value, deadline); (x in t <==> x in s) && (x in s ==> t[x] == s[x])
  {
    if keys != [] {
      var i := |keys| - 1;
      WriteKeysFrame(s, keys[..i], id, version, value, deadline, x);
      assert keys[i] in keys && !KeyOf(x, keys[i]);
    }
  }

  lemma WriteKeysStoreKey(s: Store, keys: seq<string>, id: string, version: int, value: string, deadline: int, k: string)
    requires AllPlain(keys) && k in keys
    ensures StoresKey(s, WriteKeys(s, keys, id, version, value, deadline), k, id, version, value, deadline)
  {
    WriteKeysAt(s, keys, id, version, value, deadline, k);
    WriteKeysValueAt(s, keys, id, version, value, deadline, k);
    hide WriteKeys;
  }

  lemma WriteKeysStores(s: Store, keys: seq<string>, id: string, version: int, value: string, deadline: int)
    requires AllPlain(keys)
    ensures Stores(s, WriteKeys(s, keys, id, version, value, deadline), keys, id, version, value, deadline)
  {
    var t := WriteKeys(s, keys, id, version, value, deadline);
    forall k | k in keys ensures StoresKey(s, t, k, id, version, value, deadline) {
      hide *;
      WriteKeysStoreKey(s, keys, id, version, value, deadline, k);
    }
    forall x | forall k :: k in keys ==> !KeyOf(x, k) ensures Unchanged(s, t, x) {
      hide WriteKeys, KeyOf;
      WriteKeysFrame(s, keys, id, version, value, deadline, x);
    }
    hide WriteKeys, KeyOf, StoresKey, Unchanged;
  }

  /** A granted update stores the new value under version expected + 1, for as long as asked. */
  lemma OptimisticUpdateStores(s: Store, now: int, keys: seq<string>, id: string, ttl: int, expected: int, value: string)
    requires AllPlain(keys) && ttl > 0
    ensures var (t, reply) := OptimisticUpdate(s, now, keys, id, ttl, expected, value);
            if forall k :: k in keys ==> Owns(s, now, k, id) && StoredVersion(s, now, k) in {None, Some(expected)}
            then reply == Granted(expected + 1, |keys|) && Stores(s, t, keys, id, expected + 1, value, now + ttl)
            else reply.Conflict? && t == s
  {
    hide First, WriteKeys, Stores, Owns, StoredVersion, VersionOrZero;
    var check := k => UpdateConflict(s, now, k, id, expected);
    FirstNone(keys, check);
    FirstIsConflict(keys, check);
    assert forall k :: check(k).None? <==> Owns(s, now, k, id) && StoredVersion(s, now, k) in {None, Some(expected)};
    WriteKeysStores(s, keys, id, expected + 1, value, now + ttl);
  }

  /** A granted versioned acquire stores its version, one above the expected one or 1, and its
      value, for as long as asked. */
  lemma OptimisticAcquireStores(s: Store, now: int, keys: seq<string>, id: string, ttl: int,
                                expected: Option<int>, value: string)
    requires AllPlain(keys) && ttl > 0
    ensures var (t, reply) := OptimisticAcquire(s, now, keys, id, ttl, expected, value);
            if forall k :: k in keys ==> MayTake(s, now, k, id, expected, value)
            then
              var version := if expected.Some? then expected.value + 1 else 1;
              reply == Granted(version, |keys|) && Stores(s, t, keys, id, version, value, now + ttl)
            else reply.Conflict? && t == s
  {
    hide WriteKeys, Stores, OptimisticAcquire, MayTake;
    OptimisticAcquireGrant(s, now, keys, id, ttl, expected, value);
    WriteKeysStores(s, keys, id, (if expected.Some? then expected.value else 0) + 1, value, now + ttl);
  }

  // ---- Which conflict is reported -------------------------------------------------------------

  lemma {:induction false} FirstIs(keys: seq<string>, check: string -> Option<OptReply>) returns (i: nat)
    requires First(keys, check).Some?
    ensures i < |keys| && check(keys[i]) == First(keys, check)
    ensures forall j :: 0 <= j < i ==> check(keys[j]).None?
  {
    var k := |keys| - 1;
    if First(keys[..k], check).Some? {
      i := FirstIs(keys[..k], check);
    } else {
      i := k;
      FirstNone(keys[..k], check);
      assert forall j :: 0 <= j < k ==> keys[j] in keys[..k];
    }
  }

  /** The version a conflict reports when it is not about versions: the stored one, or 0. */
  predicate ReportsVersion(s: Store, now: int, k: string, version: int) {
    version == if StoredVersion(s, now, k).Some? then StoredVersion(s, now, k).value else 0
  }

  /** k is held, or at another version, or holds another value, in this order of precedence. */
  predicate AcquireClashes(s: Store, now: int, k: string, id: string, expected: Option<int>, value: string,
                           reason: Reason, version: int)
  {
    var held := HeldByOther(s, now, k, id);
    var stored := StoredVersion(s, now, k);
    var otherVersion := expected.Some? && stored.Some? && stored != expected;
    var otherValue := value != "" && Get(s, now, k + VALUE) !in {None, Some(Text(value))};
    match reason
    case Locked => held && ReportsVersion(s, now, k, version)
    case VersionMismatch => !held && otherVersion && stored == Some(version)
    case ValueMismatch => !held && !otherVersion && otherValue && ReportsVersion(s, now, k, version)
    case _ => false
  }

  /** A refused versioned acquire reports the first key that clashes; only when none does, the
      first that has a version although none was expected. */
  lemma AcquireReportsFirst(s: Store, now: int, keys: seq<string>, id: string, ttl: int, expected: Option<int>,
                            value: string)
    returns (i: nat)
    requires ttl > 0 && OptimisticAcquire(s, now, keys, id, ttl, expected, value).1.Conflict?
    ensures i < |keys|
    ensures var reply := OptimisticAcquire(s, now, keys, id, ttl, expected, value).1;
            if reply.reason == VersionRequired then
              && expected.None? && Live(s, now, keys[i] + VERSION) && ReportsVersion(s, now, keys[i], reply.version)
              && (forall j :: 0 <= j < i ==> !Live(s, now, keys[j] + VERSION))
              && (forall j, reason, version :: 0 <= j < |keys| ==>
                    !AcquireClashes(s, now, keys[j], id, expected, value, reason, version))
            else
              && AcquireClashes(s, now, keys[i], id, expected, value, reply.reason, reply.version)
              && (forall j, reason, version :: 0 <= j < i ==>
                    !AcquireClashes(s, now, keys[j], id, expected, value, reason, version))
  {
    hide First, WriteKeys;
    var check := k => AcquireConflict(s, now, k, id, expected, value);
    var missing := k => VersionRequiredBy(s, now, k);
    if First(keys, check).Some? {
      i := FirstIs(keys, check);
    } else {
      FirstNone(keys, check);
      assert forall j :: 0 <= j < |keys| ==> keys[j] in keys && check(keys[j]).None?;
      i := FirstIs(keys, missing);
    }
  }

  /** A refused update reports the first key that is not owned, or owned at another version. */
  lemma UpdateReportsFirst(s: Store, now: int, keys: seq<string>, id: string, ttl: int, expected: int, value: string)
    returns (i: nat)
    requires ttl > 0 && OptimisticUpdate(s, now, keys, id, ttl, expected, value).1.Conflict?
    ensures i < |keys|
    ensures var reply := OptimisticUpdate(s, now, keys, id, ttl, expected, value).1;
            if Owns(s, now, keys[i], id)
            then reply.reason == VersionMismatch && reply.version != expected
                 && StoredVersion(s, now, keys[i]) == Some(reply.version)
            else reply.reason == NotOwner && ReportsVersion(s, now, keys[i], reply.version)
    ensures forall j :: 0 <= j < i ==>
              Owns(s, now, keys[j], id) && StoredVersion(s, now, keys[j]) in {None, Some(expected)}
  {
    hide First, WriteKeys;
    i := FirstIs(keys, k => UpdateConflict(s, now, k, id, expected));
  }

  /** A ttl that is not positive never changes anything, and is refused by Redis exactly where
      a positive one would have been granted. */
  lemma NonPositiveTtlChangesNothing(s: Store, now: int, keys: seq<string>, id: string, ttl: int,
                                     expected: int, value: string)
    requires ttl <= 0 && keys != []
    ensures OptimisticUpdate(s, now, keys, id, ttl, expected, value).0 == s
    ensures OptimisticUpdate(s, now, keys, id, ttl, expected, value).1.Rejected? <==>
              forall k :: k in keys ==> Owns(s, now, k, id) && StoredVersion(s, now, k) in {None, Some(expected)}
    ensures forall wanted: Option<int> :: OptimisticAcquire(s, now, keys, id, ttl, wanted, value).0 == s
    ensures forall wanted: Option<int> ::
              OptimisticAcquire(s, now, keys, id, ttl, wanted, value).1.Rejected? <==>
                forall k :: k in keys ==> MayTake(s, now, k, id, wanted, value)
  {
    hide First, WriteKeys;
    var check := k => UpdateConflict(s, now, k, id, expected);
    FirstNone(keys, check);
    FirstIsConflict(keys, check);
    assert forall k :: check(k).None? <==> Owns(s, now, k, id) && StoredVersion(s, now, k) in {None, Some(expected)};
    forall wanted: Option<int>
      ensures OptimisticAcquire(s, now, keys, id, ttl, wanted, value).0 == s
      ensures OptimisticAcquire(s, now, keys, id, ttl, wanted, value).1.Rejected? <==>
                forall k :: k in keys ==> MayTake(s, now, k, id, wanted, value)
    {
      ChecksConflict(s, now, keys, id, wanted, value);
      forall k ensures MayTake(s, now, k, id, wanted, value) <==>
                         && AcquireConflict(s, now, k, id, wanted, value).None?
                         && (wanted.Some? || VersionRequiredBy(s, now, k).None?)
      {
        MayTakeIffNoConflict(s, now, k, id, wanted, value);
      }
      hide MayTake, AcquireConflict, VersionRequiredBy;
    }
  }
}
