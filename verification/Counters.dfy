/** `LoginCounter` and `TransferCounter` (src/ftp/logincounter.cpp, src/ftp/transfercounter.cpp). */
module Counters {

  datatype CounterResult = PersonalFail | GlobalFail | Okay

  /** Both counters: a total, and a count per user id created on first use. */
  datatype Counts = Counts(global: int, personal: map<int, int>)

  const EMPTY := Counts(0, map[])

  function Get(c: Counts, uid: int): int {
    if uid in c.personal then c.personal[uid] else 0
  }

  function Add(c: Counts, uid: int, n: int): Counts {
    Counts(c.global + n, c.personal[uid := Get(c, uid) + n])
  }

  function Touched(c: Counts, uid: int): Counts {
    c.(personal := c.personal[uid := Get(c, uid)])
  }

  predicate LoginAllowed(c: Counts, uid: int, limit: int, kickLogin: bool) {
    limit == -1 || Get(c, uid) - (if kickLogin then 1 else 0) < limit
  }

  /** What a login with a kick asks first. */
  predicate AllUsed(c: Counts, uid: int, limit: int) {
    limit != -1 && Get(c, uid) >= limit
  }

  function TransferResult(c: Counts, uid: int, limit: int, exempt: bool, maxGlobal: int): CounterResult {
    if Get(c, uid) >= limit && limit != -1 then PersonalFail
    else if !exempt && maxGlobal != -1 && c.global >= maxGlobal then GlobalFail
    else Okay
  }

  class Counter {
    var global: int
    var personal: map<int, int>

    function State(): Counts
      reads this
    {
      Counts(global, personal)
    }

    constructor ()
      ensures State() == EMPTY
    {
      global, personal := 0, map[];
    }

    /** `LoginCounter::Start`. The test against the maximum number of online users has no
        effect in the original: the return it guards is commented out. */
    method StartLogin(uid: int, limit: int, kickLogin: bool) returns (result: CounterResult)
      modifies this
      ensures result == if old(LoginAllowed(State(), uid, limit, kickLogin)) then Okay else PersonalFail
      ensures State() == if result.Okay? then Add(old(State()), uid, 1) else Touched(old(State()), uid)
    {
      if uid !in personal {
        personal := personal[uid := 0];
      }
      var kicks := if kickLogin then 1 else 0;
      if limit != -1 && personal[uid] - kicks >= limit {
        return PersonalFail;
      }
      personal := personal[uid := personal[uid] + 1];
      global := global + 1;
      result := Okay;
    }

    method LoginsUsed(uid: int, limit: int) returns (used: bool)
      modifies this
      ensures used == old(AllUsed(State(), uid, limit))
      ensures State() == if limit == -1 then old(State()) else Touched(old(State()), uid)
    {
      if limit == -1 {
        return false;
      }
      if uid !in personal {
        personal := personal[uid := 0];
      }
      used := personal[uid] >= limit;
    }

    method StartTransfer(uid: int, limit: int, exempt: bool, maxGlobal: int) returns (result: CounterResult)
      modifies this
      ensures result == old(TransferResult(State(), uid, limit, exempt, maxGlobal))
      ensures State() == if result.Okay? then Add(old(State()), uid, 1) else Touched(old(State()), uid)
    {
      if uid !in personal {
        personal := personal[uid := 0];
      }
      if personal[uid] >= limit && limit != -1 {
        return PersonalFail;
      }
      if !exempt && maxGlobal != -1 && global >= maxGlobal {
        return GlobalFail;
      }
      personal := personal[uid := personal[uid] + 1];
      global := global + 1;
      result := Okay;
    }

    /** `Stop` of both counters, with its two asserts. */
    method Stop(uid: int)
      requires Get(State(), uid) > 0 && global > 0
      modifies this
      ensures State() == Add(old(State()), uid, -1)
    {
      personal := personal[uid := personal[uid] - 1];
      global := global - 1;
    }
  }

  // ----- The sum of the personal counts -----

  lemma MapWithoutItems(m: map<int, int>)
    ensures m.Items == {} ==> m == map[]
  {
    assert forall k | k in m :: (k, m[k]) in m.Items;
  }

  ghost function SomeKey(m: map<int, int>): (k: int)
    requires m != map[]
    ensures k in m
  {
    assert m.Items != {} by { MapWithoutItems(m); }
    var item :| item in m.Items;
    item.0
  }

  ghost function Sum(m: map<int, int>): int
    decreases |m|
  {
    if m == map[] then 0 else m[SomeKey(m)] + Sum(m - {SomeKey(m)})
  }

  /** The sum does not depend on the order of summation. */
  lemma {:induction false} SumAny(m: map<int, int>, k: int)
    requires k in m
    ensures Sum(m) == m[k] + Sum(m - {k})
    decreases |m|
  {
    var j := SomeKey(m);
    if j != k {
      SumAny(m - {j}, k);
      SumAny(m - {k}, j);
      assert m - {j} - {k} == m - {k} - {j};
    }
  }

  lemma SumUpdate(c: Counts, uid: int, n: int)
    ensures Sum(Add(c, uid, n).personal) == Sum(c.personal) + n
    ensures Sum(Touched(c, uid).personal) == Sum(c.personal)
  {
    SumPut(c.personal, uid, Get(c, uid) + n);
    SumPut(c.personal, uid, Get(c, uid));
  }

  lemma SumPut(m: map<int, int>, k: int, v: int)
    ensures Sum(m[k := v]) == Sum(m) + v - (if k in m then m[k] else 0)
  {
    SumAny(m[k := v], k);
    if k in m {
      SumAny(m, k);
      assert m[k := v] - {k} == m - {k};
    } else {
      assert m[k := v] - {k} == m;
    }
  }

  /** What both protocols keep: the total is the sum of the personal counts. */
  ghost predicate Balanced(c: Counts) {
    c.global == Sum(c.personal)
  }
}
