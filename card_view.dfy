/** The card list page: which cards are shaded as already passed. The
    clock is read by the page; here the current time `now` (Unix
    milliseconds) is a parameter. */
module CardView {
  import opened NasaFeed
  import Normalizer

  /** date-fns `isBefore(date, now)`: strictly earlier. */
  predicate IsBefore(epoch: int, now: int) {
    epoch < now
  }

  /** The `expired` list: one flag per rendered object, true when its
      approach time is strictly before `now`. */
  function ExpiredFlags(objs: seq<NormalizedObject>, now: int): (flags: seq<bool>)
    ensures |flags| == |objs|
    ensures forall i :: 0 <= i < |objs| ==> (flags[i] <==> ApproachEpoch(objs[i]) < now)
  {
    if objs == [] then []
    else [IsBefore(ApproachEpoch(objs[0]), now)] + ExpiredFlags(objs[1..], now)
  }

  /** How many of the objects have already passed. */
  function ExpiredCount(objs: seq<NormalizedObject>, now: int): nat {
    if objs == [] then 0
    else (if IsBefore(ApproachEpoch(objs[0]), now) then 1 else 0) + ExpiredCount(objs[1..], now)
  }

  /** On the page's list, ordered by approach time, the shaded cards are
      exactly the first `ExpiredCount` ones. */
  lemma {:induction false} ExpiredFormPrefix(objs: seq<NormalizedObject>, now: int)
    requires Normalizer.SortedByEpoch(objs)
    ensures forall i :: 0 <= i < |objs| ==> (ExpiredFlags(objs, now)[i] <==> i < ExpiredCount(objs, now))
  {
    if objs != [] {
      var rest := objs[1..];
      assert Normalizer.SortedByEpoch(rest);
      ExpiredFormPrefix(rest, now);
      if !IsBefore(ApproachEpoch(objs[0]), now) {
        ZeroExpiredAfterLaterStart(rest, ApproachEpoch(objs[0]), now);
      }
    }
  }

  /** If no object starts before `start` and `start` is not before `now`,
      nothing has passed. */
  lemma {:induction false} ZeroExpiredAfterLaterStart(objs: seq<NormalizedObject>, start: int, now: int)
    requires forall i :: 0 <= i < |objs| ==> start <= ApproachEpoch(objs[i])
    requires now <= start
    ensures ExpiredCount(objs, now) == 0
  {
    if objs != [] {
      ZeroExpiredAfterLaterStart(objs[1..], start, now);
    }
  }
}
