/** The shared transfer speeds of src/ftp/speedcounter.cpp and src/ftp/speedcounter.hpp. */
module SpeedCounter {
  import opened Wrappers

  /** Microseconds and bytes. */
  datatype SpeedInfo = SpeedInfo(xfertime: int, bytes: int)

  datatype Entry = Entry(count: int, info: SpeedInfo)

  type Speeds = map<string, Entry>

  function Plus(a: SpeedInfo, b: SpeedInfo): SpeedInfo {
    SpeedInfo(a.xfertime + b.xfertime, a.bytes + b.bytes)
  }

  function Minus(a: SpeedInfo, b: SpeedInfo): SpeedInfo {
    SpeedInfo(a.xfertime - b.xfertime, a.bytes - b.bytes)
  }

  predicate NonNegative(a: SpeedInfo) {
    a.xfertime >= 0 && a.bytes >= 0
  }

  // ----- One path at a time -----

  function UpdateOne(speeds: Speeds, last: Option<SpeedInfo>, current: SpeedInfo, path: string): Speeds {
    if path !in speeds then speeds[path := Entry(1, current)]
    else
      var e := speeds[path];
      match last
      case Some(l) => speeds[path := Entry(e.count, Plus(Minus(e.info, l), current))]
      case None => speeds[path := Entry(e.count + 1, Plus(e.info, current))]
  }

  function ClearOne(speeds: Speeds, last: SpeedInfo, path: string): Speeds {
    if path !in speeds then speeds
    else
      var e := speeds[path];
      if e.count - 1 <= 0 then speeds - {path}
      else speeds[path := Entry(e.count - 1, Minus(e.info, last))]
  }

  /** The asserts of `operator-=` hold, and the number of transfers divided by is not zero. */
  predicate UpdateOneSafe(speeds: Speeds, last: Option<SpeedInfo>, path: string) {
    path in speeds ==> speeds[path].count > 0 && (last.Some? ==> NonNegative(Minus(speeds[path].info, last.value)))
  }

  predicate ClearOneSafe(speeds: Speeds, last: SpeedInfo, path: string) {
    path in speeds && speeds[path].count > 1 ==> NonNegative(Minus(speeds[path].info, last))
  }

  // ----- The first `n` paths of a transfer, in order, repetitions included -----

  function Update(speeds: Speeds, last: Option<SpeedInfo>, current: SpeedInfo, limits: seq<string>, n: nat): Speeds
    requires n <= |limits|
  {
    if n == 0 then speeds
    else UpdateOne(Update(speeds, last, current, limits, n - 1), last, current, limits[n - 1])
  }

  ghost predicate UpdateSafe(speeds: Speeds, last: Option<SpeedInfo>, current: SpeedInfo, limits: seq<string>) {
    forall k :: 0 <= k < |limits| ==> UpdateOneSafe(Update(speeds, last, current, limits, k), last, limits[k])
  }

  function Clear(speeds: Speeds, last: SpeedInfo, limits: seq<string>, n: nat): Speeds
    requires n <= |limits|
  {
    if n == 0 then speeds
    else ClearOne(Clear(speeds, last, limits, n - 1), last, limits[n - 1])
  }

  ghost predicate ClearSafe(speeds: Speeds, last: SpeedInfo, limits: seq<string>) {
    forall k :: 0 <= k < |limits| ==> ClearOneSafe(Clear(speeds, last, limits, k), last, limits[k])
  }

  class Counter {
    var speeds: Speeds

    constructor ()
      ensures speeds == map[]
    {
      speeds := map[];
    }

    method UpdateSpeeds(last: Option<SpeedInfo>, current: SpeedInfo, limits: seq<string>)
      requires UpdateSafe(speeds, last, current, limits)
      modifies this
      ensures speeds == Update(old(speeds), last, current, limits, |limits|)
    {
      var i := 0;
      while i < |limits|
        invariant i <= |limits| && speeds == Update(old(speeds), last, current, limits, i)
      {
        assert UpdateOneSafe(speeds, last, limits[i]);
        var path := limits[i];
        if path !in speeds {
          speeds := speeds[path := Entry(1, current)];
        } else {
          var count, info := speeds[path].count, speeds[path].info;
          if last.Some? {
            info := Minus(info, last.value);
            assert info.xfertime >= 0 && info.bytes >= 0;
          } else {
            count := count + 1;
          }
          info := Plus(info, current);
          assert count > 0;
          speeds := speeds[path := Entry(count, info)];
        }
        i := i + 1;
      }
    }

    method ClearSpeeds(last: Option<SpeedInfo>, limits: seq<string>)
      requires last.Some? ==> ClearSafe(speeds, last.value, limits)
      modifies this
      ensures speeds == if last.None? then old(speeds) else Clear(old(speeds), last.value, limits, |limits|)
    {
      if last.None? {
        return;
      }
      var i := 0;
      while i < |limits|
        invariant i <= |limits| && speeds == Clear(old(speeds), last.value, limits, i)
      {
        assert ClearOneSafe(speeds, last.value, limits[i]);
        var path := limits[i];
        if path in speeds {
          var count, info := speeds[path].count - 1, speeds[path].info;
          if count <= 0 {
            speeds := speeds - {path};
          } else {
            info := Minus(info, last.value);
            assert info.xfertime >= 0 && info.bytes >= 0;
            speeds := speeds[path := Entry(count, info)];
          }
        }
        i := i + 1;
      }
    }
  }
}
