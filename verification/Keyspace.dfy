/** One Redis node: a keyspace whose entries expire on the node's own millisecond clock. */
module Keyspace {
  import opened Wrappers

  /** A stored string; `Number` is one that Lua's `tonumber` accepts. */
  datatype Value = Text(text: string) | Number(num: int)

  /** Every key here was set with PX, so every entry carries a deadline. */
  datatype Entry = Entry(value: Value, deadline: int)

  type Store = map<string, Entry>

  /** A key is gone once the clock has passed its deadline. */
  predicate Live(s: Store, now: int, k: string) {
    k in s && now <= s[k].deadline
  }

  /** GET */
  function Get(s: Store, now: int, k: string): Option<Value> {
    if Live(s, now, k) then Some(s[k].value) else None
  }

  const DATA := ":data"
  const VERSION := ":version"
  const VALUE := ":value"

  predicate EndsWith(k: string, suffix: string) {
    |k| >= |suffix| && k[|k| - |suffix|..] == suffix
  }

  /** A key that no script derives from another key. */
  predicate Plain(k: string) {
    !EndsWith(k, DATA) && !EndsWith(k, VERSION) && !EndsWith(k, VALUE)
  }

  predicate AllPlain(keys: seq<string>) {
    forall k :: k in keys ==> Plain(k)
  }

  lemma Derived(k: string, suffix: string)
    ensures EndsWith(k + suffix, suffix)
    ensures suffix in {DATA, VERSION, VALUE} ==> !Plain(k + suffix)
  {
    assert (k + suffix)[|k|..] == suffix;
  }

  lemma DerivedInjective(a: string, b: string, suffix: string)
    requires a + suffix == b + suffix
    ensures a == b
  {
    assert |a| == |b|;
    assert a == (a + suffix)[..|a|] == (b + suffix)[..|b|] == b;
  }

  lemma DerivedApart(a: string, b: string)
    ensures a + VERSION != b + VALUE
  {
    var x, y := a + VERSION, b + VALUE;
    assert x[|x| - 1] == 'n' && y[|y| - 1] == 'e';
  }

  class RedisNode {
    var store: Store
    var clock: int

    constructor (clock: int)
      ensures store == map[] && this.clock == clock
    {
      store := map[];
      this.clock := clock;
    }
  }
}
