/**
 * The queue arithmetic of the player in apps/web/src/App.tsx: which id
 * `handleNext`, `handlePrev` and `handleEnded` hand to `handlePlay`, the
 * repeat toggle, and the record `handleTimeUpdate` persists and
 * `loadPlaybackState` reads back. Queues are lists of track ids; an id of 0
 * is falsy in the source and is never played by next or previous.
 */
module Transport {
  import opened Wrappers
  import opened ContentStore

  /** `q.indexOf(x)`: the first position of `x`, or -1. */
  function IndexOf(q: seq<int>, x: int): (i: int)
    ensures -1 <= i < |q|
    ensures i == -1 <==> x !in q
    ensures 0 <= i ==> q[i] == x && x !in q[..i]
  {
    if q == [] then -1
    else if q[0] == x then 0
    else
      var j := IndexOf(q[1..], x);
      assert j >= 0 ==> q[..j + 1] == [q[0]] + q[1..][..j];
      if j == -1 then -1 else j + 1
  }

  /** In a queue without repeats, `indexOf` finds every element where it is. */
  lemma IndexOfDistinct(q: seq<int>, i: int)
    requires Distinct(q) && 0 <= i < |q|
    ensures IndexOf(q, q[i]) == i
  {
  }

  /** `queue.indexOf(currentTrackId ?? -1)`. */
  function CurrentIndex(q: seq<int>, current: Option<int>): int {
    IndexOf(q, current.GetOr(-1))
  }

  /** The index `handleNext` reads: the random pick under shuffle, else the one after the current. */
  function NextIndex(q: seq<int>, current: Option<int>, shuffle: bool, pick: nat): (k: nat)
    requires q != [] && pick < |q|
    ensures k < |q|
  {
    if shuffle then pick else (CurrentIndex(q, current) + 1) % |q|
  }

  /** The index `handlePrev` reads: one back, but never before the head. */
  function PrevIndex(q: seq<int>, current: Option<int>): (k: nat)
    requires q != []
    ensures k < |q|
  {
    var c := CurrentIndex(q, current);
    if c > 0 then c - 1 else 0
  }

  /** The id `handleNext` plays, if it plays one. */
  function NextTarget(q: seq<int>, current: Option<int>, shuffle: bool, pick: nat): Option<int>
    requires q != [] ==> pick < |q|
  {
    if q == [] then None
    else
      var id := q[NextIndex(q, current, shuffle, pick)];
      if id == 0 then None else Some(id)
  }

  /** The id `handlePrev` plays, if it plays one. */
  function PrevTarget(q: seq<int>, current: Option<int>): Option<int> {
    if q == [] then None
    else
      var id := q[PrevIndex(q, current)];
      if id == 0 then None else Some(id)
  }

  /** The id `handleEnded` plays: the current one (or 0) under "one", the next under "all". */
  function EndedTarget(repeat: string, q: seq<int>, current: Option<int>, shuffle: bool, pick: nat): Option<int>
    requires q != [] ==> pick < |q|
  {
    if repeat == "one" then Some(current.GetOr(0))
    else if repeat == "all" then NextTarget(q, current, shuffle, pick)
    else None
  }

  /** Whatever `next` or `previous` plays is a non-zero id of the queue; an empty queue plays nothing. */
  lemma TargetsComeFromQueue(q: seq<int>, current: Option<int>, shuffle: bool, pick: nat)
    requires q != [] ==> pick < |q|
    ensures q == [] ==> NextTarget(q, current, shuffle, pick).None? && PrevTarget(q, current).None?
    ensures NextTarget(q, current, shuffle, pick).Some? ==>
              NextTarget(q, current, shuffle, pick).value in q && NextTarget(q, current, shuffle, pick).value != 0
    ensures PrevTarget(q, current).Some? ==> PrevTarget(q, current).value in q && PrevTarget(q, current).value != 0
  {
  }

  /** Without shuffle, `next` plays the id after the current one, wrapping from the tail to the head. */
  lemma NextFollowsQueue(q: seq<int>, i: int, pick: nat)
    requires Distinct(q) && 0 <= i < |q| && pick < |q|
    requires q[(i + 1) % |q|] != 0
    ensures NextTarget(q, Some(q[i]), false, pick) == Some(q[(i + 1) % |q|])
  {
    IndexOfDistinct(q, i);
  }

  /** A current id that is not queued (or none at all) makes `next` start from the head. */
  lemma NextFromOutsideStartsAtHead(q: seq<int>, current: Option<int>, pick: nat)
    requires q != [] && pick < |q| && q[0] != 0
    requires current.GetOr(-1) !in q
    ensures NextTarget(q, current, false, pick) == Some(q[0])
  {
    assert CurrentIndex(q, current) == -1;
    assert NextIndex(q, current, false, pick) == 0 by {
      ModUnique(0, |q|, 0, 0);
    }
  }

  /** With shuffle, every non-zero queued id can be the next one, and only the random pick decides. */
  lemma ShuffleReachesEveryTrack(q: seq<int>, current: Option<int>, k: nat)
    requires k < |q| && q[k] != 0
    ensures NextTarget(q, current, true, k) == Some(q[k])
  {
  }

  /** `previous` steps back one place. */
  lemma PrevStepsBack(q: seq<int>, i: int)
    requires Distinct(q) && 0 < i < |q| && q[i - 1] != 0
    ensures PrevTarget(q, Some(q[i])) == Some(q[i - 1])
  {
    IndexOfDistinct(q, i);
  }

  /** `previous` at the head stays at the head: it never wraps to the tail. */
  lemma PrevNeverWraps(q: seq<int>, current: Option<int>)
    requires q != [] && q[0] != 0
    requires current.GetOr(-1) !in q || current == Some(q[0])
    ensures PrevTarget(q, current) == Some(q[0])
  {
  }

  /** Away from the tail, `previous` undoes `next`. */
  lemma PrevUndoesNext(q: seq<int>, i: int, pick: nat)
    requires Distinct(q) && 0 <= i < |q| - 1 && pick < |q|
    requires q[i] != 0 && q[i + 1] != 0
    ensures PrevTarget(q, NextTarget(q, Some(q[i]), false, pick)) == Some(q[i])
  {
    NextFollowsQueue(q, i, pick);
    ModIsSucc(i, |q|);
    var n := NextTarget(q, Some(q[i]), false, pick);
    assert n == Some(q[i + 1]);
    PrevStepsBack(q, i + 1);
  }

  /** `next` pressed `k` times without shuffle (a press that plays nothing leaves the current id). */
  function NextTimes(q: seq<int>, current: Option<int>, k: nat): Option<int>
    requires q != []
  {
    if k == 0 then current
    else
      var c := NextTimes(q, current, k - 1);
      match NextTarget(q, c, false, 0)
      case None => c
      case Some(id) => Some(id)
  }

  /** The position after `j` in a queue of length `n`, wrapping from the tail to the head. */
  function Succ(j: nat, n: nat): nat {
    if j + 1 >= n then 0 else j + 1
  }

  /** `j` moved `k` places round a queue of length `n`. */
  function Rotate(j: nat, k: nat, n: nat): nat {
    if k == 0 then j else Succ(Rotate(j, k - 1, n), n)
  }

  /** Over a queue of distinct non-zero ids, `k` presses of `next` move `k` places round the queue. */
  lemma {:induction false} NextTimesRotates(q: seq<int>, i: nat, k: nat)
    requires Distinct(q) && i < |q|
    requires forall j :: 0 <= j < |q| ==> q[j] != 0
    ensures Rotate(i, k, |q|) < |q|
    ensures NextTimes(q, Some(q[i]), k) == Some(q[Rotate(i, k, |q|)])
  {
    if k > 0 {
      NextTimesRotates(q, i, k - 1);
      NextStep(q, Rotate(i, k - 1, |q|));
    }
  }

  lemma NextStep(q: seq<int>, j: nat)
    requires Distinct(q) && j < |q|
    requires forall j :: 0 <= j < |q| ==> q[j] != 0
    ensures NextTarget(q, Some(q[j]), false, 0) == Some(q[Succ(j, |q|)])
  {
    assert (j + 1) % |q| == Succ(j, |q|) by { ModIsSucc(j, |q|); }
    NextFollowsQueue(q, j, 0);
  }

  lemma ModIsSucc(j: nat, n: nat)
    requires j < n
    ensures (j + 1) % n == Succ(j, n)
  {
    if j + 1 == n {
      ModUnique(j + 1, n, 1, 0);
    } else {
      ModUnique(j + 1, n, 0, j + 1);
    }
  }

  /** Rotating is adding modulo the length. */
  lemma {:induction false} RotateIsMod(j: nat, k: nat, n: nat)
    requires j < n
    ensures Rotate(j, k, n) == (j + k) % n
  {
    if k == 0 {
      ModUnique(j, n, 0, j);
    } else {
      var r := Rotate(j, k - 1, n);
      RotateIsMod(j, k - 1, n);
      assert Succ(r, n) == (r + 1) % n by { ModIsSucc(r, n); }
      assert (r + 1) % n == (j + k) % n by { ModSucc(j + k - 1, n); }
    }
  }

  lemma ModSucc(a: nat, n: nat)
    requires n > 0
    ensures (a % n + 1) % n == (a + 1) % n
  {
    var q, r := a / n, a % n;
    if r + 1 == n {
      assert a + 1 == (q + 1) * n + 0;
      ModUnique(a + 1, n, q + 1, 0);
      ModUnique(n, n, 1, 0);
    } else {
      assert a + 1 == q * n + (r + 1);
      ModUnique(a + 1, n, q, r + 1);
      ModUnique(r + 1, n, 0, r + 1);
    }
  }

  lemma ModUnique(x: int, n: int, q: int, r: int)
    requires n > 0 && 0 <= r < n && x == q * n + r
    ensures x % n == r
  {
    var q', r' := x / n, x % n;
    assert (q - q') * n == r' - r;
    if q > q' {
      assert (q - q') * n >= n by { MulAtLeast(q - q', n); }
    } else if q < q' {
      assert (q' - q) * n >= n by { MulAtLeast(q' - q, n); }
    }
  }

  lemma MulAtLeast(a: int, n: int)
    requires a >= 1 && n > 0
    ensures a * n >= n
  {
    assert a * n == (a - 1) * n + n;
  }

  /** So a full round of `next` comes back to where it started. */
  lemma NextFullRoundReturns(q: seq<int>, i: nat)
    requires Distinct(q) && i < |q|
    requires forall j :: 0 <= j < |q| ==> q[j] != 0
    ensures NextTimes(q, Some(q[i]), |q|) == Some(q[i])
  {
    var n := |q|;
    NextTimesRotates(q, i, n);
    assert Rotate(i, n, n) == i by {
      RotateIsMod(i, n, n);
      assert i + n == 1 * n + i;
      ModUnique(i + n, n, 1, i);
    }
  }

  /**
   * What the end of a track plays, in terms of the queue: repeat "one"
   * replays the current track, shuffle or not;
   * repeat "all" without shuffle plays the next track of the queue, wrapping
   * from the tail to the head, and with shuffle the random pick; any other
   * mode plays nothing.
   */
  lemma EndedRespectsRepeat(q: seq<int>, i: int, shuffle: bool, pick: nat, mode: string)
    requires Distinct(q) && 0 <= i < |q| && pick < |q|
    ensures EndedTarget("one", q, Some(q[i]), shuffle, pick) == Some(q[i])
    ensures q[(i + 1) % |q|] != 0 ==> EndedTarget("all", q, Some(q[i]), false, pick) == Some(q[(i + 1) % |q|])
    ensures q[pick] != 0 ==> EndedTarget("all", q, Some(q[i]), true, pick) == Some(q[pick])
    ensures mode != "one" && mode != "all" ==> EndedTarget(mode, q, Some(q[i]), shuffle, pick).None?
  {
    if q[(i + 1) % |q|] != 0 {
      NextFollowsQueue(q, i, pick);
    }
  }

  /** The repeat toggle: off, one, all, and anything else back to off. */
  function NextRepeat(r: string): string {
    if r == "off" then "one" else if r == "one" then "all" else "off"
  }

  predicate IsRepeatMode(r: string) {
    r == "off" || r == "one" || r == "all"
  }

  /** The toggle cycles through the three modes with period three and leaves any other value at once. */
  lemma RepeatCycle(r: string)
    ensures IsRepeatMode(NextRepeat(r))
    ensures IsRepeatMode(r) ==> NextRepeat(r) != r && NextRepeat(NextRepeat(NextRepeat(r))) == r
    ensures !IsRepeatMode(r) ==> NextRepeat(r) == "off"
  {
  }

  /** The part of the player state that survives a reload. */
  datatype PlayerSession = PlayerSession(
    currentTrackId: Option<int>,
    positionMs: int,
    queue: seq<int>,
    shuffle: bool,
    repeat: string)

  /** The record `handleTimeUpdate` writes. */
  function Persisted(s: PlayerSession): PlaybackState {
    PlaybackState(s.currentTrackId, Some(s.positionMs), Some(s.queue), Some(s.shuffle), Some(s.repeat))
  }

  /**
   * What `loadPlaybackState` makes of a stored record: missing fields fall
   * back to no track, position 0, an empty queue, no shuffle, and a missing
   * or empty repeat to "off"; any other repeat string is taken as it is.
   */
  function Restored(p: PlaybackState): PlayerSession {
    PlayerSession(
      p.lastTrackId,
      p.positionMs.GetOr(0),
      p.queue.GetOr([]),
      p.shuffle.GetOr(false),
      if p.repeat.None? || p.repeat.value == "" then "off" else p.repeat.value)
  }

  /** Persisting and reading back gives the same session, unless the repeat string was empty. */
  lemma RestoreAfterPersist(s: PlayerSession)
    ensures s.repeat != "" ==> Restored(Persisted(s)) == s
    ensures s.repeat == "" ==> Restored(Persisted(s)) == s.(repeat := "off")
  {
  }
}
