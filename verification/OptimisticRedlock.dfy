/** Optimistic reads and writes of the Redlock client: a version-guarded write on every
    node, a majority read, and the rollback of a write that missed its quorum.
    Versions are numbers here; the code keeps their decimal strings. */
module OptimisticRedlock {
  import opened Wrappers
  import Quorum
  import opened InternalRedlock

  /** One resource on one node: its value key and its version key, where they are there. */
  datatype Cell = Cell(value: Option<string>, version: Option<int>)

  // ---- What the scripts compute --------------------------------------------------------

  /** The version-guarded write; the reply is the new version. */
  function Write(c: Cell, value: string, expected: int): (Cell, Option<int>) {
    if c.version.None? && expected == 0 then (Cell(Some(value), Some(1)), Some(1))
    else if c.version == Some(expected) then (Cell(Some(value), Some(expected + 1)), Some(expected + 1))
    else (c, None)
  }

  /** An accepted write is always answered with the next version. */
  lemma WriteReply(c: Cell, value: string, expected: int)
    ensures Write(c, value, expected).1 in {None, Some(expected + 1)}
  {
  }

  /** The rollback of a write that expected `expected`. */
  function RollBack(c: Cell, expected: int): Cell {
    if c.version != Some(expected + 1) then c
    else if expected == 0 then Cell(None, None)
    else c.(version := Some(expected))
  }

  function Read(c: Cell): Option<(string, int)> {
    if c.value.Some? then Some((c.value.value, if c.version.Some? then c.version.value else 0)) else None
  }

  // ---- The same with expiring keys --------------------------------------------------------

  /** What a node stores. Both keys of a resource are set and deleted by the same scripts, with
      the same ttl or with none, so they share their expiry. */
  datatype Stored = Stored(cell: Cell, expiry: Option<int>)

  const GONE := Stored(Cell(None, None), None)

  /** The keys as a script finds them. */
  function Alive(s: Stored, now: int): Stored {
    if s.expiry.Some? && now > s.expiry.value then GONE else s
  }

  function Shown(s: Stored, now: int): Cell { Alive(s, now).cell }

  /** An accepted write drops the expiry the keys had; PEXPIRE with a ttl that is not positive
      deletes them at once. */
  function WriteTo(s: Stored, now: int, value: string, expected: int, ttl: Option<int>): (Stored, Option<int>) {
    var (c, reply) := Write(Shown(s, now), value, expected);
    if reply.None? then (Alive(s, now), None)
    else if ttl.None? then (Stored(c, None), reply)
    else if ttl.value <= 0 then (GONE, reply)
    else (Stored(c, Some(now + ttl.value)), reply)
  }

  lemma ReplyIsNextVersion(s: Stored, now: int, value: string, expected: int, ttl: Option<int>)
    ensures WriteTo(s, now, value, expected, ttl).1 in {None, Some(expected + 1)}
  {
    WriteReply(Shown(s, now), value, expected);
  }

  /** DECR keeps the expiry. */
  function RollBackOn(s: Stored, now: int, expected: int): Stored {
    var p := Alive(s, now);
    var c := RollBack(p.cell, expected);
    if c != p.cell && c == Cell(None, None) then GONE else p.(cell := c)
  }

  class Replica {
    var stored: Stored
    var clock: int

    constructor (clock: int)
      ensures stored == GONE && this.clock == clock
    {
      stored := GONE;
      this.clock := clock;
    }

    method RunWrite(value: string, expected: int, ttl: Option<int>) returns (reply: Option<int>)
      modifies this`stored
      ensures (stored, reply) == WriteTo(old(stored), clock, value, expected, ttl)
    {
      stored := Alive(stored, clock);
      var currentVersion := stored.cell.version;
      if (currentVersion.None? && expected == 0) || currentVersion == Some(expected) {
        var newVersion := if currentVersion.None? then 1 else currentVersion.value + 1;
        stored := Stored(Cell(Some(value), Some(newVersion)), None);
        if ttl.Some? {
          stored := if ttl.value > 0 then stored.(expiry := Some(clock + ttl.value)) else GONE;
        }
        return Some(newVersion);
      }
      return None;
    }

    method RunRollBack(expected: int)
      modifies this`stored
      ensures stored == RollBackOn(old(stored), clock, expected)
    {
      stored := Alive(stored, clock);
      if stored.cell.version == Some(expected + 1) {
        if expected == 0 {
          stored := GONE;
        } else {
          stored := stored.(cell := stored.cell.(version := Some(expected)));
        }
      }
    }
  }

  // ---- Majority read -------------------------------------------------------------------

  type Answer = Option<(string, int)>

  /** How many nodes answered p. */
  function Tally(answers: seq<Answer>, p: (string, int)): (c: nat)
    ensures c <= |answers|
  {
    if answers == [] then 0
    else Tally(answers[..|answers| - 1], p) + if answers[|answers| - 1] == Some(p) then 1 else 0
  }

  function Valid(answers: seq<Answer>): (c: nat)
    ensures c <= |answers|
  {
    if answers == [] then 0
    else Valid(answers[..|answers| - 1]) + if answers[|answers| - 1].Some? then 1 else 0
  }

  lemma {:induction false} TwoTallies(answers: seq<Answer>, p: (string, int), q: (string, int))
    requires p != q
    ensures Tally(answers, p) + Tally(answers, q) <= Valid(answers) <= |answers|
  {
    if answers != [] {
      TwoTallies(answers[..|answers| - 1], p, q);
    }
  }

  lemma {:induction false} TallyAtMostValid(answers: seq<Answer>, p: (string, int))
    ensures Tally(answers, p) <= Valid(answers)
  {
    if answers != [] {
      TallyAtMostValid(answers[..|answers| - 1], p);
    }
  }

  /** At most one pair is held by a majority, so the order in which the tallies are
      inspected cannot matter. */
  lemma MajorityUnique(answers: seq<Answer>, p: (string, int), q: (string, int))
    requires Tally(answers, p) >= Quorum.Size(|answers|) && Tally(answers, q) >= Quorum.Size(|answers|)
    ensures p == q
  {
    if p != q {
      TwoTallies(answers, p, q);
    }
  }

  /** The tally loop of the read. */
  method CountAnswers(answers: seq<Answer>) returns (versionMap: map<(string, int), nat>, valid: nat)
    ensures forall p :: p in versionMap <==> Tally(answers, p) > 0
    ensures forall p :: p in versionMap ==> versionMap[p] == Tally(answers, p)
    ensures valid == Valid(answers)
  {
    versionMap, valid := map[], 0;
    for i := 0 to |answers|
      invariant forall p :: p in versionMap <==> Tally(answers[..i], p) > 0
      invariant forall p :: p in versionMap ==> versionMap[p] == Tally(answers[..i], p)
      invariant valid == Valid(answers[..i])
    {
      assert answers[..i + 1][..i] == answers[..i];
      if answers[i].Some? {
        var key := answers[i].value;
        versionMap := versionMap[key := (if key in versionMap then versionMap[key] else 0) + 1];
        valid := valid + 1;
      }
    }
    assert answers[..|answers|] == answers;
  }

  /** The read returns a pair exactly when a quorum of the nodes answered that pair. */
  method MajorityRead(answers: seq<Answer>) returns (r: Answer)
    requires answers != []
    ensures forall p :: r == Some(p) <==> Tally(answers, p) >= Quorum.Size(|answers|)
  {
    var quorum := Quorum.Size(|answers|);
    var versionMap, valid := CountAnswers(answers);
    r := None;
    if valid >= quorum {
      var maxCount := 0;
      var todo := versionMap.Keys;
      while todo != {}
        invariant todo <= versionMap.Keys
        invariant forall p :: p in versionMap && p !in todo ==> (versionMap[p] >= quorum <==> r == Some(p))
        invariant r.Some? ==> r.value in versionMap && r.value !in todo && versionMap[r.value] >= quorum
        invariant maxCount == if r.Some? then versionMap[r.value] else 0
        decreases |todo|
      {
        var key := Quorum.AnyOf(todo);
        todo := todo - {key};
        var count := versionMap[key];
        if r.Some? && count >= quorum {
          MajorityUnique(answers, r.value, key);
        }
        if count >= quorum && count > maxCount {
          r := Some(key);
          maxCount := count;
        }
      }
    }
    forall p ensures Tally(answers, p) >= quorum ==> valid >= quorum && p in versionMap {
      TallyAtMostValid(answers, p);
    }
  }

  // ---- One write over all nodes ----------------------------------------------------------

  /** What one write call does: on a quorum of acknowledgements it stands; with some, but
      too few, every node is told to roll back; with none, nothing more happens. */
  ghost predicate WriteDone(before: seq<Cell>, after: seq<Cell>, value: string, expected: int, fates: seq<Fate>,
                            rollbacks: seq<Fate>, acks: seq<bool>, r: Option<int>)
  {
    && |before| == |after| == |fates| == |rollbacks| == |acks|
    && (forall i :: 0 <= i < |before| ==>
          && acks[i] == (fates[i].Delivered? && Write(before[i], value, expected).1.Some?)
          && (var mid := if fates[i].Undelivered? then before[i] else Write(before[i], value, expected).0;
              after[i] == if 0 < Quorum.Count(acks) < Quorum.Size(|before|) && !rollbacks[i].Undelivered?
                          then RollBack(mid, expected) else mid))
    && r == (if Quorum.Count(acks) >= Quorum.Size(|before|) && expected + 1 != 0 then Some(expected + 1) else None)
  }

  /** One write call on nodes whose keys may expire and whose clocks move before the rollback. */
  ghost predicate CallDone(before: seq<Stored>, clocks: seq<int>, after: seq<Stored>, later: seq<int>, value: string,
                           expected: int, ttl: Option<int>, fates: seq<Fate>, rollbacks: seq<Fate>, acks: seq<bool>,
                           r: Option<int>)
  {
    && |before| == |clocks| == |after| == |later| == |fates| == |rollbacks| == |acks|
    && (forall i :: 0 <= i < |before| ==>
          && clocks[i] <= later[i]
          && acks[i] == (fates[i].Delivered? && WriteTo(before[i], clocks[i], value, expected, ttl).1.Some?)
          && (var mid := if fates[i].Undelivered? then before[i] else WriteTo(before[i], clocks[i], value, expected, ttl).0;
              after[i] == if 0 < Quorum.Count(acks) < Quorum.Size(|before|) && !rollbacks[i].Undelivered?
                          then RollBackOn(mid, later[i], expected) else mid))
    && r == (if Quorum.Count(acks) >= Quorum.Size(|before|) && expected + 1 != 0 then Some(expected + 1) else None)
  }

  lemma PackCall(before: seq<Stored>, clocks: seq<int>, mid: seq<Stored>, after: seq<Stored>, later: seq<int>,
                 value: string, expected: int, ttl: Option<int>, fates: seq<Fate>, rollbacks: seq<Fate>,
                 acks: seq<bool>, r: Option<int>)
    requires |before| == |clocks| == |mid| == |after| == |later| == |fates| == |rollbacks| == |acks|
    requires forall i :: 0 <= i < |before| ==>
               && clocks[i] <= later[i]
               && acks[i] == (fates[i].Delivered? && WriteTo(before[i], clocks[i], value, expected, ttl).1.Some?)
               && mid[i] == if fates[i].Undelivered? then before[i]
                            else WriteTo(before[i], clocks[i], value, expected, ttl).0
    requires forall i :: 0 <= i < |before| ==>
               after[i] == if 0 < Quorum.Count(acks) < Quorum.Size(|before|) && !rollbacks[i].Undelivered?
                           then RollBackOn(mid[i], later[i], expected) else mid[i]
    requires r == if Quorum.Count(acks) >= Quorum.Size(|before|) && expected + 1 != 0 then Some(expected + 1) else None
    ensures CallDone(before, clocks, after, later, value, expected, ttl, fates, rollbacks, acks, r)
  {
    hide WriteTo, RollBackOn, Quorum.Count, Quorum.Size;
  }

  function Cells(stores: seq<Stored>, clocks: seq<int>): (cells: seq<Cell>)
    requires |stores| == |clocks|
    ensures |cells| == |stores| && forall i :: 0 <= i < |stores| ==> cells[i] == Shown(stores[i], clocks[i])
  {
    seq(|stores|, i requires 0 <= i < |stores| => Shown(stores[i], clocks[i]))
  }

  /** No key a node held, and none the call may write, expires while the call is under way. */
  predicate NothingExpires(before: seq<Stored>, clocks: seq<int>, later: seq<int>, ttl: Option<int>)
    requires |before| == |clocks| == |later|
  {
    forall i :: 0 <= i < |before| ==>
      && Alive(before[i], later[i]) == Alive(before[i], clocks[i])
      && (ttl.Some? ==> 0 < ttl.value && later[i] <= clocks[i] + ttl.value)
  }

  /** Then the call does to what the nodes show what a write without ttl does. */
  lemma CallOnCells(before: seq<Stored>, clocks: seq<int>, after: seq<Stored>, later: seq<int>, value: string,
                    expected: int, ttl: Option<int>, fates: seq<Fate>, rollbacks: seq<Fate>, acks: seq<bool>,
                    r: Option<int>)
    requires CallDone(before, clocks, after, later, value, expected, ttl, fates, rollbacks, acks, r)
    requires NothingExpires(before, clocks, later, ttl)
    ensures WriteDone(Cells(before, clocks), Cells(after, later), value, expected, fates, rollbacks, acks, r)
  {
    hide Quorum.Count, Quorum.Size;
    forall i | 0 <= i < |before|
      ensures var mid := if fates[i].Undelivered? then before[i] else WriteTo(before[i], clocks[i], value, expected, ttl).0;
              Shown(mid, later[i]) == if fates[i].Undelivered? then Shown(before[i], clocks[i])
                                      else Write(Shown(before[i], clocks[i]), value, expected).0
    {
    }
  }

  /** `results.map(r => r !== null)` */
  function Replied(results: seq<Option<int>>): (r: seq<bool>)
    ensures |r| == |results| && forall i :: 0 <= i < |results| ==> r[i] == results[i].Some?
  {
    seq(|results|, i requires 0 <= i < |results| => results[i].Some?)
  }

  lemma {:induction false} SomeAck(acks: seq<bool>)
    ensures Quorum.Count(acks) > 0 <==> exists i :: 0 <= i < |acks| && acks[i]
  {
    if acks != [] {
      var k := |acks| - 1;
      SomeAck(acks[..k]);
      if exists i :: 0 <= i < |acks| && acks[i] {
        var i :| 0 <= i < |acks| && acks[i];
        assert i < k ==> acks[..k][i];
      }
      if exists i :: 0 <= i < k && acks[..k][i] {
        var i :| 0 <= i < k && acks[..k][i];
        assert acks[i];
      }
    }
  }

  /** `results.find(r => r !== null)`, where all replies agree. */
  method FirstReply(results: seq<Option<int>>, ghost version: int) returns (first: Option<int>)
    requires forall i :: 0 <= i < |results| ==> results[i].None? || results[i] == Some(version)
    ensures first == if Quorum.Count(Replied(results)) > 0 then Some(version) else None
  {
    for i := 0 to |results|
      invariant forall j :: 0 <= j < i ==> results[j].None?
    {
      if results[i].Some? {
        assert Replied(results)[i];
        SomeAck(Replied(results));
        return results[i];
      }
    }
    SomeAck(Replied(results));
    return None;
  }

  /** The round trip to one node; an error or a lost answer counts as no reply. */
  method WriteOne(client: Replica, value: string, expected: int, ttl: Option<int>, fate: Fate) returns (result: Option<int>)
    modifies client`stored
    ensures result == if fate.Delivered? then WriteTo(old(client.stored), client.clock, value, expected, ttl).1 else None
    ensures client.stored == if fate.Undelivered? then old(client.stored)
                             else WriteTo(old(client.stored), client.clock, value, expected, ttl).0
  {
    hide WriteTo;
    result := None;
    if !fate.Undelivered? {
      var reply := client.RunWrite(value, expected, ttl);
      if fate.Delivered? {
        result := reply;
      }
    }
  }

  class OptimisticClient {
    const clients: seq<Replica>

    ghost predicate Distinct() {
      |clients| > 0 && forall i, j :: 0 <= i < j < |clients| ==> clients[i] != clients[j]
    }

    ghost function Stores(): (s: seq<Stored>)
      reads set c | c in clients
      ensures |s| == |clients| && forall i :: 0 <= i < |clients| ==> s[i] == clients[i].stored
    {
      seq(|clients|, i requires 0 <= i < |clients| reads set c | c in clients => clients[i].stored)
    }

    ghost function Clocks(): (s: seq<int>)
      reads set c | c in clients
      ensures |s| == |clients| && forall i :: 0 <= i < |clients| ==> s[i] == clients[i].clock
    {
      seq(|clients|, i requires 0 <= i < |clients| reads set c | c in clients => clients[i].clock)
    }

    /** What the nodes answer to a read; a lost answer counts as none. */
    ghost function Answers(fates: seq<Fate>): (s: seq<Answer>)
      requires |fates| == |clients|
      reads set c | c in clients
      ensures |s| == |clients|
      ensures forall i :: 0 <= i < |clients| ==>
                s[i] == if fates[i].Delivered? then Read(Shown(clients[i].stored, clients[i].clock)) else None
    {
      seq(|clients|, i requires 0 <= i < |clients| reads set c | c in clients =>
                       if fates[i].Delivered? then Read(Shown(clients[i].stored, clients[i].clock)) else None)
    }

    constructor (clients: seq<Replica>)
      requires |clients| > 0 && forall i, j :: 0 <= i < j < |clients| ==> clients[i] != clients[j]
      ensures Distinct() && this.clients == clients
    {
      this.clients := clients;
    }

    method OptimisticRead(fates: seq<Fate>) returns (r: Answer)
      requires Distinct() && |fates| == |clients|
      ensures forall p :: r == Some(p) <==> Tally(Answers(fates), p) >= Quorum.Size(|clients|)
    {
      var answers := [];
      for i := 0 to |clients|
        invariant |answers| == i && forall j :: 0 <= j < i ==> answers[j] == Answers(fates)[j]
      {
        answers := answers + [if fates[i].Delivered? then Read(Shown(clients[i].stored, clients[i].clock)) else None];
      }
      assert answers == Answers(fates);
      r := MajorityRead(answers);
    }

    method RollBackAll(expected: int, fates: seq<Fate>)
      requires Distinct() && |fates| == |clients|
      modifies (set c | c in clients)`stored
      ensures forall i :: 0 <= i < |clients| ==>
                clients[i].stored == if fates[i].Undelivered? then old(clients[i].stored)
                                     else RollBackOn(old(clients[i].stored), clients[i].clock, expected)
    {
      for i := 0 to |clients|
        invariant forall j :: i <= j < |clients| ==> clients[j].stored == old(clients[j].stored)
        invariant forall j :: 0 <= j < i ==>
                    clients[j].stored == if fates[j].Undelivered? then old(clients[j].stored)
                                         else RollBackOn(old(clients[j].stored), clients[j].clock, expected)
      {
        if !fates[i].Undelivered? {
          clients[i].RunRollBack(expected);
        }
      }
    }

    /** Time passes on the nodes' clocks while the client waits. */
    method Wait(waits: seq<nat>)
      requires Distinct() && |waits| == |clients|
      modifies (set c | c in clients)`clock
      ensures forall i :: 0 <= i < |clients| ==> clients[i].clock == old(clients[i].clock) + waits[i]
    {
      for i := 0 to |clients|
        invariant forall j :: i <= j < |clients| ==> clients[j].clock == old(clients[j].clock)
        invariant forall j :: 0 <= j < i ==> clients[j].clock == old(clients[j].clock) + waits[j]
      {
        clients[i].clock := clients[i].clock + waits[i];
      }
    }

    method WriteAll(value: string, expected: int, ttl: Option<int>, fates: seq<Fate>) returns (results: seq<Option<int>>)
      requires Distinct() && |fates| == |clients|
      modifies (set c | c in clients)`stored
      ensures |results| == |clients|
      ensures forall i :: 0 <= i < |clients| ==>
                && results[i] == (if fates[i].Delivered?
                                  then WriteTo(old(clients[i].stored), clients[i].clock, value, expected, ttl).1 else None)
                && clients[i].stored == if fates[i].Undelivered? then old(clients[i].stored)
                                        else WriteTo(old(clients[i].stored), clients[i].clock, value, expected, ttl).0
    {
      hide WriteTo;
      results := [];
      for i := 0 to |clients|
        invariant |results| == i
        invariant forall j :: i <= j < |clients| ==> clients[j].stored == old(clients[j].stored)
        invariant forall j :: 0 <= j < i ==>
                    && results[j] == (if fates[j].Delivered?
                                      then WriteTo(old(clients[j].stored), clients[j].clock, value, expected, ttl).1
                                      else None)
                    && clients[j].stored == if fates[j].Undelivered? then old(clients[j].stored)
                                            else WriteTo(old(clients[j].stored), clients[j].clock, value, expected, ttl).0
      {
        var result := WriteOne(clients[i], value, expected, ttl, fates[i]);
        results := results + [result];
      }
    }

    /** `waits` is how far the nodes' clocks move before the rollback. */
    method OptimisticWrite(value: string, expected: int, ttl: Option<int>, fates: seq<Fate>, waits: seq<nat>,
                           rollbacks: seq<Fate>)
      returns (r: Option<int>, ghost acks: seq<bool>)
      requires Distinct() && |fates| == |clients| && |waits| == |clients| && |rollbacks| == |clients|
      modifies set c | c in clients
      ensures CallDone(old(Stores()), old(Clocks()), Stores(), Clocks(), value, expected, ttl, fates, rollbacks, acks, r)
    {
      hide WriteTo, RollBackOn, Quorum.Count, CallDone;
      ghost var before, clocks := Stores(), Clocks();
      var results := WriteAll(value, expected, ttl, fates);
      ghost var mid := Stores();
      var replied := Replied(results);
      acks := replied;
      var successCount := Quorum.Count(replied);
      var quorum := Quorum.Size(|clients|);
      Wait(waits);
      assert Stores() == mid;
      r := None;
      if successCount >= quorum {
        forall i | 0 <= i < |results| ensures results[i].None? || results[i] == Some(expected + 1) {
          ReplyIsNextVersion(before[i], clocks[i], value, expected, ttl);
        }
        var first := FirstReply(results, expected + 1);
        r := if first == Some(0) then None else first;
      } else if successCount > 0 {
        RollBackAll(expected, rollbacks);
      }
      PackCall(before, clocks, mid, Stores(), Clocks(), value, expected, ttl, fates, rollbacks, acks, r);
    }
  }

  // ---- Rollback of a write that missed its quorum ----------------------------------------

  /** The node executed the write, whether or not its answer came back. */
  predicate Executed(c: Cell, value: string, expected: int, fate: Fate) {
    !fate.Undelivered? && Write(c, value, expected).1.Some?
  }

  /** The rollback reaches a node that is at the version it undoes. */
  predicate HitByRollback(c: Cell, expected: int, rollback: Fate) {
    !rollback.Undelivered? && c.version == Some(expected + 1)
  }

  /** A write that misses its quorum, with nobody writing in between, leaves every version as
      it was exactly when either no acknowledgement arrived and no node executed it, or one
      did, the rollback reached every node that executed it, and it reached none that was at
      the next version already. */
  lemma FailedWriteRestoresVersionsIff(before: seq<Cell>, after: seq<Cell>, value: string, expected: int,
                                       fates: seq<Fate>, rollbacks: seq<Fate>, acks: seq<bool>, r: Option<int>)
    requires WriteDone(before, after, value, expected, fates, rollbacks, acks, r)
    requires Quorum.Count(acks) < Quorum.Size(|before|)
    requires forall i :: 0 <= i < |before| && before[i].version.Some? ==> before[i].version.value >= 1
    ensures (forall i :: 0 <= i < |before| ==> after[i].version == before[i].version) <==>
              if exists i :: 0 <= i < |before| && acks[i]
              then forall i :: 0 <= i < |before| ==>
                     && (Executed(before[i], value, expected, fates[i]) ==> !rollbacks[i].Undelivered?)
                     && !HitByRollback(before[i], expected, rollbacks[i])
              else forall i :: 0 <= i < |before| ==> !Executed(before[i], value, expected, fates[i])
  {
    SomeAck(acks);
    var rolls := exists i :: 0 <= i < |before| && acks[i];
    forall i | 0 <= i < |before|
      ensures after[i].version == before[i].version <==>
                if rolls
                then (Executed(before[i], value, expected, fates[i]) ==> !rollbacks[i].Undelivered?)
                     && !HitByRollback(before[i], expected, rollbacks[i])
                else !Executed(before[i], value, expected, fates[i])
    {
    }
  }

  /** What a rolled-back write does leave behind: on a node that executed it, the value it
      wrote under the old version, or no value at all when it was a first write. */
  lemma FailedWriteLeavesItsValue(before: seq<Cell>, after: seq<Cell>, value: string, expected: int, fates: seq<Fate>,
                                  rollbacks: seq<Fate>, acks: seq<bool>, r: Option<int>, i: nat)
    requires WriteDone(before, after, value, expected, fates, rollbacks, acks, r)
    requires 0 < Quorum.Count(acks) < Quorum.Size(|before|)
    requires i < |before| && !rollbacks[i].Undelivered? && Executed(before[i], value, expected, fates[i])
    ensures after[i] == if expected == 0 then Cell(None, None) else Cell(Some(value), Some(expected))
  {
  }

  /** How many nodes executed the write. */
  function Executions(before: seq<Cell>, value: string, expected: int, fates: seq<Fate>): (votes: seq<bool>)
    requires |before| == |fates|
    ensures |votes| == |before|
    ensures forall i :: 0 <= i < |before| ==> votes[i] == Executed(before[i], value, expected, fates[i])
  {
    seq(|before|, i requires 0 <= i < |before| => Executed(before[i], value, expected, fates[i]))
  }

  function Reads(cells: seq<Cell>): (answers: seq<Answer>)
    ensures |answers| == |cells| && forall i :: 0 <= i < |cells| ==> answers[i] == Read(cells[i])
  {
    seq(|cells|, i requires 0 <= i < |cells| => Read(cells[i]))
  }

  lemma {:induction false} TallyIsCount(answers: seq<Answer>, p: (string, int), votes: seq<bool>)
    requires |answers| == |votes| && forall i :: 0 <= i < |answers| ==> (answers[i] == Some(p) <==> votes[i])
    ensures Tally(answers, p) == Quorum.Count(votes)
  {
    if answers != [] {
      var k := |answers| - 1;
      TallyIsCount(answers[..k], p, votes[..k]);
    }
  }

  /** A write that failed and was rolled back everywhere can be what the next majority read
      returns, its new value under the old version: exactly when a quorum of nodes had
      executed it, because their acknowledgements were lost. */
  lemma FailedWriteIsReadIff(before: seq<Cell>, after: seq<Cell>, value: string, expected: int, fates: seq<Fate>,
                             rollbacks: seq<Fate>, acks: seq<bool>, r: Option<int>)
    requires WriteDone(before, after, value, expected, fates, rollbacks, acks, r) && expected != 0
    requires 0 < Quorum.Count(acks) < Quorum.Size(|before|)
    requires forall i :: 0 <= i < |before| ==> !rollbacks[i].Undelivered? && before[i].value != Some(value)
    ensures r.None?
    ensures Tally(Reads(after), (value, expected)) >= Quorum.Size(|after|) <==>
              Quorum.Count(Executions(before, value, expected, fates)) >= Quorum.Size(|before|)
  {
    var votes := Executions(before, value, expected, fates);
    var answers := Reads(after);
    forall i | 0 <= i < |before| ensures answers[i] == Some((value, expected)) <==> votes[i] {
      if votes[i] {
        FailedWriteLeavesItsValue(before, after, value, expected, fates, rollbacks, acks, r, i);
      }
    }
    TallyIsCount(answers, (value, expected), votes);
  }

  /** A failed write with a ttl, rolled back in time, puts that ttl on a record that may have
      had none: its version is restored, and then the whole record expires. */
  lemma FailedWriteMakesItExpire(before: seq<Stored>, clocks: seq<int>, after: seq<Stored>, later: seq<int>,
                                 value: string, expected: int, ttl: int, fates: seq<Fate>, rollbacks: seq<Fate>,
                                 acks: seq<bool>, r: Option<int>, i: nat, now: int)
    requires CallDone(before, clocks, after, later, value, expected, Some(ttl), fates, rollbacks, acks, r)
    requires 0 < Quorum.Count(acks) < Quorum.Size(|before|) && expected != 0
    requires i < |before| && !rollbacks[i].Undelivered? && 0 < ttl && later[i] <= clocks[i] + ttl
    requires Executed(Shown(before[i], clocks[i]), value, expected, fates[i])
    ensures r.None?
    ensures Shown(after[i], now) == if now <= clocks[i] + ttl then Cell(Some(value), Some(expected)) else Cell(None, None)
  {
    hide Quorum.Count, Quorum.Size;
  }

  // ---- What a won write is worth -------------------------------------------------------------

  /** The nodes whose answer arrives and that are at the expected version; a first write expects
      0, which a node without a version is at. */
  function AtExpected(cells: seq<Cell>, expected: int, fates: seq<Fate>): (r: set<int>)
    requires |cells| == |fates|
    ensures forall j :: j in r <==>
              0 <= j < |cells| && fates[j].Delivered?
              && (cells[j].version == Some(expected) || (expected == 0 && cells[j].version.None?))
  {
    set j | 0 <= j < |cells| && fates[j].Delivered?
            && (cells[j].version == Some(expected) || (expected == 0 && cells[j].version.None?))
  }

  lemma AcceptedIff(s: Stored, now: int, value: string, expected: int, ttl: Option<int>)
    ensures WriteTo(s, now, value, expected, ttl).1.Some? <==>
              var v := Shown(s, now).version; v == Some(expected) || (expected == 0 && v.None?)
  {
  }

  /** A write wins exactly when a majority of the nodes answers and is at the expected version,
      and then it returns the next version. (A next version of 0 is lost to `|| null`.) */
  lemma WriteWonIff(before: seq<Stored>, clocks: seq<int>, after: seq<Stored>, later: seq<int>, value: string,
                    expected: int, ttl: Option<int>, fates: seq<Fate>, rollbacks: seq<Fate>, acks: seq<bool>,
                    r: Option<int>)
    requires CallDone(before, clocks, after, later, value, expected, ttl, fates, rollbacks, acks, r)
    ensures r == if 2 * |AtExpected(Cells(before, clocks), expected, fates)| > |before| && expected != -1
                 then Some(expected + 1) else None
  {
    var ready := AtExpected(Cells(before, clocks), expected, fates);
    forall j ensures j in ready <==> 0 <= j < |acks| && acks[j] {
      if 0 <= j < |acks| { AcceptedIff(before[j], clocks[j], value, expected, ttl); }
    }
    hide WriteTo, RollBackOn, Quorum.Size, Quorum.Count;
    MajorityIff(acks, ready);
  }

  /** An accepted write is there, under its version, for exactly its ttl, or for good without
      one; whatever expiry the record had before is gone. */
  lemma WrittenLivesExactly(s: Stored, now: int, value: string, expected: int, ttl: Option<int>, later: int)
    requires WriteTo(s, now, value, expected, ttl).1.Some? && now <= later
    ensures Shown(WriteTo(s, now, value, expected, ttl).0, later)
         == if ttl.None? || (ttl.value > 0 && later <= now + ttl.value)
            then Cell(Some(value), Some(expected + 1)) else Cell(None, None)
  {
  }

  lemma {:induction false} TallyAtLeast(answers: seq<Answer>, p: (string, int), votes: seq<bool>)
    requires |answers| == |votes| && forall i :: 0 <= i < |answers| && votes[i] ==> answers[i] == Some(p)
    ensures Tally(answers, p) >= Quorum.Count(votes)
  {
    if answers != [] {
      var k := |answers| - 1;
      TallyAtLeast(answers[..k], p, votes[..k]);
    }
  }

  /** A won write is what the next majority read returns, its value under the version it
      returned, until the ttl it was given runs out on a node. */
  lemma WonWriteIsRead(before: seq<Stored>, clocks: seq<int>, after: seq<Stored>, later: seq<int>, value: string,
                       expected: int, ttl: Option<int>, fates: seq<Fate>, rollbacks: seq<Fate>, acks: seq<bool>,
                       r: Option<int>, read: seq<int>)
    requires CallDone(before, clocks, after, later, value, expected, ttl, fates, rollbacks, acks, r) && r.Some?
    requires |read| == |after| && forall i :: 0 <= i < |read| ==>
               clocks[i] <= read[i] && (ttl.Some? ==> 0 < ttl.value && read[i] <= clocks[i] + ttl.value)
    ensures Tally(Reads(Cells(after, read)), (value, r.value)) >= Quorum.Size(|after|)
  {
    var answers := Reads(Cells(after, read));
    forall i | 0 <= i < |after| && acks[i] ensures answers[i] == Some((value, r.value)) {
      WrittenLivesExactly(before[i], clocks[i], value, expected, ttl, read[i]);
      hide WriteTo, RollBackOn, Quorum.Size, Quorum.Count;
    }
    hide WriteTo, RollBackOn, Quorum.Size;
    TallyAtLeast(answers, (value, r.value), acks);
  }

  /** What a node shows a reader is what it accepts from a writer: a write that expects the
      version just read is accepted, one that expects another is not. */
  lemma ReadThenWrite(c: Cell, value: string, expected: int)
    requires Read(c).Some?
    ensures Write(c, value, expected) == if expected == Read(c).value.1
                                         then (Cell(Some(value), Some(expected + 1)), Some(expected + 1)) else (c, None)
  {
  }
}
