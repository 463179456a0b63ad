/**
 * The stopwatch the solvers time their phases with (TimeMonitor.java). The
 * Java class keeps its three collections in static fields; here one
 * `TimeMonitor` object holds them. The clock is the `now` parameter of
 * `Start` and `Stop`.
 */
module Timing {
  import opened Wrappers

  /** The RuntimeExceptions of `start` and `stop`. */
  datatype MonitorError = AlreadyStarted(key: string) | NotStarted(key: string)

  /** `printElapsed` fails on an empty key set (`max().getAsInt()`) or a zero total (long division by zero). */
  datatype ReportError = NoKeys | ZeroTotal

  /** One line of `printElapsed`: the key, its total time and its share in percent. */
  datatype Row = Row(key: string, elapsed: int, percent: int)

  /** No key occurs twice: the insertion-ordered set of registered keys. */
  predicate Distinct(ks: seq<string>)
  {
    forall i, j :: 0 <= i < j < |ks| ==> ks[i] != ks[j]
  }

  /** `getOrDefault(key, 0L)`. */
  function GetOr(e: map<string, int>, key: string): int
  {
    if key in e then e[key] else 0
  }

  /** The sum of the elapsed times of the keys `ks`. */
  function SumOver(ks: seq<string>, e: map<string, int>): int
    decreases |ks|
  {
    if ks == [] then 0 else SumOver(ks[..|ks| - 1], e) + GetOr(e, ks[|ks| - 1])
  }

  /** Java's `/` on `long`: the quotient truncated toward zero. */
  function JavaDiv(a: int, b: int): (q: int)
    requires b != 0
    ensures a >= 0 && b > 0 ==> q == a / b
    ensures -a >= 0 && b > 0 ==> q == -((-a) / b)
  {
    var magnitude := (if a < 0 then -a else a) / (if b < 0 then -b else b);
    if (a < 0) == (b < 0) then magnitude else -magnitude
  }

  /** The order of adding changes nothing: the last key's time adds on top of the rest. */
  lemma SumOverAppend(ks: seq<string>, key: string, e: map<string, int>)
    ensures SumOver(ks + [key], e) == SumOver(ks, e) + GetOr(e, key)
  {
    assert (ks + [key])[..|ks|] == ks;
  }

  /** Changing the time of one key changes the sum by the difference, if the key is counted. */
  lemma {:induction false} SumOverUpdate(ks: seq<string>, e: map<string, int>, key: string, v: int)
    requires Distinct(ks)
    ensures SumOver(ks, e[key := v]) == SumOver(ks, e) + if key in ks then v - GetOr(e, key) else 0
  {
    if ks != [] {
      var prefix, last := ks[..|ks| - 1], ks[|ks| - 1];
      assert ks == prefix + [last];
      SumOverUpdate(prefix, e, key, v);
      if last == key {
        assert key !in prefix by {
          forall i | 0 <= i < |prefix|
            ensures prefix[i] != key
          {
            assert ks[i] == prefix[i];
          }
        }
      }
    }
  }

  /** With no negative time among `ks`, every key's time is at most the sum. */
  lemma {:induction false} TermAtMostSum(ks: seq<string>, e: map<string, int>, key: string)
    requires forall k :: k in ks ==> GetOr(e, k) >= 0
    ensures 0 <= SumOver(ks, e)
    ensures key in ks ==> GetOr(e, key) <= SumOver(ks, e)
  {
    if ks != [] {
      var prefix, last := ks[..|ks| - 1], ks[|ks| - 1];
      assert ks == prefix + [last];
      TermAtMostSum(prefix, e, key);
    }
  }

  /** Shares of a non-negative total lie between 0 and 100 percent. */
  lemma PercentBounded(part: int, total: int)
    requires 0 <= part <= total && total > 0
    ensures 0 <= JavaDiv(100 * part, total) <= 100
  {
    assert 100 * part <= 100 * total;
    assert (100 * total) / total == 100;
  }

  class TimeMonitor {
    /** `sKeys`: the registered keys in registration order. */
    var keys: seq<string>
    /** `sStartTimes`: the start time of every running key. */
    var startTimes: map<string, int>
    /** `sElapsed`: the accumulated time of every stopped key. */
    var elapsed: map<string, int>

    /** Keys are registered once, and every started or stopped key is registered. */
    ghost predicate Valid()
      reads this
    {
      Distinct(keys) &&
      (forall k :: k in startTimes ==> k in keys) &&
      (forall k :: k in elapsed ==> k in keys)
    }

    /** `getElapsed`: the accumulated time of the key, 0 for a key never stopped. */
    function GetElapsed(key: string): int
      reads this
    {
      GetOr(elapsed, key)
    }

    /** The sum of all accumulated times, the `totalElapsed` of `printElapsed`. */
    function Total(): int
      reads this
    {
      SumOver(keys, elapsed)
    }

    /** The static initial state: nothing registered, running or stopped. */
    constructor()
      ensures Valid() && keys == [] && startTimes == map[] && elapsed == map[]
    {
      keys := [];
      startTimes := map[];
      elapsed := map[];
    }

    /** `register`: a new key goes at the end of the order; a known key changes nothing. */
    method Register(key: string)
      requires Valid()
      modifies this
      ensures Valid() && key in keys
      ensures keys == if key in old(keys) then old(keys) else old(keys) + [key]
      ensures startTimes == old(startTimes) && elapsed == old(elapsed)
      ensures Total() == old(Total())
    {
      if key !in keys {
        SumOverAppend(keys, key, elapsed);
        keys := keys + [key];
      }
    }

    /** `start`: a running key fails; otherwise the key is registered and starts at `now`. */
    method Start(key: string, now: int) returns (r: Result<(), MonitorError>)
      requires Valid()
      modifies this
      ensures Valid()
      ensures r.Failure? <==> key in old(startTimes)
      ensures r.Failure? ==> r.error == AlreadyStarted(key) && unchanged(this)
      ensures r.Success? ==> key in keys && keys == (if key in old(keys) then old(keys) else old(keys) + [key])
      ensures r.Success? ==> startTimes == old(startTimes)[key := now] && elapsed == old(elapsed)
      ensures Total() == old(Total())
    {
      if key in startTimes {
        return Failure(AlreadyStarted(key));
      }
      Register(key);
      assert key in keys;
      startTimes := startTimes[key := now];
      assert Total() == old(Total());
      r := Success(());
    }

    /**
     * `stop`, the clock read as `now`: a key that is not running fails;
     * otherwise the time since its start is returned and added to its
     * accumulated time, and it stops running.
     */
    method Stop(key: string, now: int) returns (r: Result<int, MonitorError>)
      requires Valid()
      modifies this
      ensures Valid()
      ensures r.Failure? <==> key !in old(startTimes)
      ensures r.Failure? ==> r.error == NotStarted(key) && unchanged(this)
      ensures r.Success? ==> r.value == now - old(startTimes[key])
      ensures r.Success? ==> GetElapsed(key) == old(GetElapsed(key)) + r.value
      ensures r.Success? ==> elapsed == old(elapsed)[key := old(GetElapsed(key)) + r.value]
      ensures r.Success? ==> startTimes == old(startTimes) - {key} && keys == old(keys)
      ensures r.Success? ==> Total() == old(Total()) + r.value
    {
      var endTime := now;
      if key !in startTimes {
        return Failure(NotStarted(key));
      }
      var lap := endTime - startTimes[key];
      SumOverUpdate(keys, elapsed, key, GetElapsed(key) + lap);
      elapsed := elapsed[key := GetElapsed(key) + lap];
      startTimes := startTimes - {key};
      return Success(lap);
    }

    /**
     * What `printElapsed` prints, without its padding: a line per key in
     * registration order with the key's time and its share of the total,
     * truncated like Java's long division.
     */
    function Report(): (r: Result<seq<Row>, ReportError>)
      reads this
      ensures r.Failure? <==> keys == [] || Total() == 0
      ensures keys == [] ==> r == Failure(NoKeys)
      ensures keys != [] && Total() == 0 ==> r == Failure(ZeroTotal)
      ensures r.Success? ==> |r.value| == |keys| && forall i :: 0 <= i < |keys| ==>
        r.value[i].key == keys[i] && r.value[i].elapsed == GetElapsed(keys[i]) &&
        r.value[i].percent == JavaDiv(100 * GetElapsed(keys[i]), Total())
    {
      if keys == [] then Failure(NoKeys)
      else if Total() == 0 then Failure(ZeroTotal)
      else
        var total := Total();
        Success(seq(|keys|, i requires 0 <= i < |keys| reads this =>
          Row(keys[i], GetElapsed(keys[i]), JavaDiv(100 * GetElapsed(keys[i]), total))))
    }

    /** With no negative lap, every printed share lies between 0 and 100 percent. */
    lemma ReportPercents()
      requires forall k :: k in keys ==> GetElapsed(k) >= 0
      ensures Report().Success? ==> forall i :: 0 <= i < |keys| ==> 0 <= Report().value[i].percent <= 100
    {
      if Report().Success? {
        forall i | 0 <= i < |keys|
          ensures 0 <= Report().value[i].percent <= 100
        {
          TermAtMostSum(keys, elapsed, keys[i]);
          PercentBounded(GetElapsed(keys[i]), Total());
        }
      }
    }
  }
}
