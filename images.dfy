/**
 * The module-level list `uploaded_images`: records of a stored path and the
 * moment of upload, appended by uploads, read through a trailing time window
 * by the collage step and pruned with the same window by the scheduler.
 */
module Images {
  import opened Text

  /** A moment in time, in microseconds (the resolution of Python's `datetime`). */
  type Instant = int

  const MicrosPerSecond: int := 1_000_000
  /** `COLLAGE_INTERVAL`, in seconds. */
  const IntervalSeconds: int := 60
  /** `timedelta(seconds=COLLAGE_INTERVAL)`. */
  const Interval: int := IntervalSeconds * MicrosPerSecond

  /** One entry `{'path': ..., 'timestamp': ...}` of `uploaded_images`. */
  datatype Record = Record(path: string, timestamp: Instant)

  /** `current_time - img['timestamp'] <= timedelta(seconds=COLLAGE_INTERVAL)`. */
  function InWindow(r: Record, now: Instant): (inside: bool)
    ensures inside <==> r.timestamp >= now - Interval
  {
    now - r.timestamp <= Interval
  }

  /** The records of `s` inside the window at `now`, in their original order. */
  function Recent(s: seq<Record>, now: Instant): (w: seq<Record>)
    ensures |w| <= |s|
    ensures forall i :: 0 <= i < |w| ==> InWindow(w[i], now)
  {
    if s == [] then []
    else Recent(s[..|s| - 1], now) + (if InWindow(s[|s| - 1], now) then [s[|s| - 1]] else [])
  }

  /** `a` is `b` with some elements left out and the rest kept in order. */
  ghost predicate IsSubsequence<T>(a: seq<T>, b: seq<T>)
    decreases |b|
  {
    if a == [] then true
    else if b == [] then false
    else (a[|a| - 1] == b[|b| - 1] && IsSubsequence(a[..|a| - 1], b[..|b| - 1]))
         || IsSubsequence(a, b[..|b| - 1])
  }

  /** The window keeps every in-window record as often as the store holds it, and no other. */
  lemma {:induction false} RecentCounts(s: seq<Record>, now: Instant, r: Record)
    ensures multiset(Recent(s, now))[r] == if InWindow(r, now) then multiset(s)[r] else 0
  {
    if s != [] {
      var p := s[..|s| - 1];
      assert s == p + [s[|s| - 1]];
      RecentCounts(p, now, r);
    }
  }

  lemma RecentMembers(s: seq<Record>, now: Instant, r: Record)
    ensures r in Recent(s, now) <==> r in s && InWindow(r, now)
  {
    RecentCounts(s, now, r);
    assert r in Recent(s, now) <==> multiset(Recent(s, now))[r] > 0;
    assert r in s <==> multiset(s)[r] > 0;
  }

  /** The window is an order-preserving subsequence of the store. */
  lemma {:induction false} RecentIsSubsequence(s: seq<Record>, now: Instant)
    ensures IsSubsequence(Recent(s, now), s)
  {
    if s != [] {
      var p := s[..|s| - 1];
      RecentIsSubsequence(p, now);
      var w := Recent(s, now);
      if InWindow(s[|s| - 1], now) {
        assert w[..|w| - 1] == Recent(p, now);
      } else {
        assert w == Recent(p, now);
        SubsequenceOfPrefix(w, s);
      }
    }
  }

  lemma SubsequenceOfPrefix<T>(a: seq<T>, b: seq<T>)
    requires b != [] && IsSubsequence(a, b[..|b| - 1])
    ensures IsSubsequence(a, b)
  {
  }

  /** A record appended last is seen last by the window, if it is inside it. */
  lemma RecentAppend(s: seq<Record>, r: Record, now: Instant)
    ensures Recent(s + [r], now) == Recent(s, now) + (if InWindow(r, now) then [r] else [])
  {
    assert (s + [r])[..|s|] == s;
  }

  /**
   * Filtering at `earlier` and then at `later` keeps what filtering at `later`
   * alone keeps: a record the window drops never comes back, so pruning loses
   * nothing a later collage would place.
   */
  lemma {:induction false} RecentThenLater(s: seq<Record>, earlier: Instant, later: Instant)
    requires earlier <= later
    ensures Recent(Recent(s, earlier), later) == Recent(s, later)
  {
    if s != [] {
      var p := s[..|s| - 1];
      var x := s[|s| - 1];
      assert s == p + [x];
      RecentThenLater(p, earlier, later);
      if InWindow(x, earlier) {
        assert Recent(s, earlier) == Recent(p, earlier) + [x];
        RecentAppend(Recent(p, earlier), x, later);
      } else {
        assert Recent(s, earlier) == Recent(p, earlier);
      }
    }
  }

  /** Filtering twice at the same moment equals filtering once. */
  lemma RecentIdempotent(s: seq<Record>, now: Instant)
    ensures Recent(Recent(s, now), now) == Recent(s, now)
  {
    RecentThenLater(s, now, now);
  }

  /**
   * A record appended while a round composes (after the window was read at
   * `collageTime`, before the prune at `pruneTime`) is not in that round's
   * window, survives the prune, and is outside the next round's window,
   * which is read at least one interval after the prune because the sleep
   * follows the prune: it is placed in no collage.
   */
  lemma {:induction false} RoundGapMissesUpload(
    s: seq<Record>, r: Record, collageTime: Instant, pruneTime: Instant, nextRead: Instant)
    requires r !in s
    requires collageTime < r.timestamp < pruneTime && pruneTime - r.timestamp <= Interval
    requires nextRead >= pruneTime + Interval
    ensures r !in Recent(s, collageTime)
    ensures r in Recent(s + [r], pruneTime)
    ensures r !in Recent(Recent(s + [r], pruneTime), nextRead)
  {
    RecentMembers(s, collageTime, r);
    RecentMembers(s + [r], pruneTime, r);
    RecentThenLater(s + [r], pruneTime, nextRead);
    RecentMembers(s + [r], nextRead, r);
  }

  /** `[os.path.basename(img['path']) for img in uploaded_images]`. */
  function TrackedNames(s: seq<Record>): (names: seq<string>)
    ensures |names| == |s|
    ensures forall i :: 0 <= i < |s| ==> names[i] == Basename(s[i].path) && '/' !in names[i]
  {
    seq(|s|, i requires 0 <= i < |s| => Basename(s[i].path))
  }

  /** An appended record adds its base name at the end of the broadcast list and changes no other entry. */
  lemma TrackedNamesAppend(s: seq<Record>, r: Record)
    ensures TrackedNames(s + [r]) == TrackedNames(s) + [Basename(r.path)]
  {
    assert forall i :: 0 <= i < |s| ==> (s + [r])[i] == s[i];
  }

  /** The image list `uploaded_images`, shared by the upload handler and the scheduler. */
  class ImageStore {
    var images: seq<Record>

    constructor ()
      ensures images == []
    {
      images := [];
    }

    /** `uploaded_images.append(...)`: one record more, at the end. */
    method Append(r: Record)
      modifies this
      ensures images == old(images) + [r]
    {
      images := images + [r];
    }

    /** The list comprehension that selects the records for a collage. */
    method Window(now: Instant) returns (w: seq<Record>)
      ensures w == Recent(images, now)
    {
      w := [];
      var i := 0;
      while i < |images|
        invariant 0 <= i <= |images|
        invariant w == Recent(images[..i], now)
      {
        assert images[..i + 1][..i] == images[..i];
        if InWindow(images[i], now) {
          w := w + [images[i]];
        }
        i := i + 1;
      }
      assert images[..i] == images;
    }

    /** The scheduler's clean-up: `uploaded_images` is replaced by its window at `now`. */
    method Prune(now: Instant)
      modifies this
      ensures images == Recent(old(images), now)
    {
      var kept := Window(now);
      images := kept;
    }
  }
}
