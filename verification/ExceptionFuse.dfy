/** The session fuse on repeated exceptions (packages/core/analytics/exception-dedupe.ts:24-110). A
    fingerprint is given as the hash it ends up as, or None when there is nothing to key on. */
module ExceptionFuse {
  import opened Options

  const SAMPLE_LIMIT := 3.0
  const MAX_FINGERPRINTS := 50

  datatype Json = Num(value: real) | NotANumber

  type Counts = map<string, Json>

  /** What `getItem` may return: nothing, a text that is no JSON object, or an object. */
  datatype Blob = Absent | Garbage | Object(counts: Counts)

  /** How storage behaves during one call. */
  datatype Access = Access(available: bool, readable: bool, writable: bool)

  function ReadCounts(blob: Blob): Counts {
    if blob.Object? then blob.counts else map[]
  }

  function Current(counts: Counts, fp: string): real {
    if fp in counts && counts[fp].Num? then counts[fp].value else 0.0
  }

  /** The decision, and the blob it leaves. */
  function Decide(blob: Blob, fingerprint: Option<string>, access: Access): (bool, Blob) {
    if fingerprint.None? || !access.available || !access.readable then (false, blob)
    else
      var counts := ReadCounts(blob);
      var current := Current(counts, fingerprint.value);
      if current >= SAMPLE_LIMIT then (true, blob)
      else if (current == 0.0 && |counts| >= MAX_FINGERPRINTS) || !access.writable then (false, blob)
      else (false, Object(counts[fingerprint.value := Num(current + 1.0)]))
  }

  class SessionFuse {
    var blob: Blob

    constructor ()
      ensures blob == Absent
    {
      blob := Absent;
    }

    method ShouldDropException(fingerprint: Option<string>, access: Access) returns (dropped: bool)
      modifies this
      ensures (dropped, blob) == Decide(old(blob), fingerprint, access)
    {
      if fingerprint.None? || !access.available {
        return false;
      }
      if !access.readable {
        return false;
      }
      var counts := ReadCounts(blob);
      var current := Current(counts, fingerprint.value);
      if current >= SAMPLE_LIMIT {
        return true;
      }
      if current == 0.0 && |counts| >= MAX_FINGERPRINTS {
        return false;
      }
      counts := counts[fingerprint.value := Num(current + 1.0)];
      if access.writable {
        blob := Object(counts);
      }
      return false;
    }
  }

  // ----- runs -----

  /** An exception is reported, or something else writes to the blob. */
  datatype Event = Thrown(fingerprint: Option<string>, access: Access) | Overwritten(blob: Blob)

  /** How many events of each fingerprint were seen, and how many of them kept. */
  datatype Tally = Tally(seen: map<string, nat>, kept: map<string, nat>)

  const NOTHING := Tally(map[], map[])

  function At(m: map<string, nat>, fp: string): nat {
    if fp in m then m[fp] else 0
  }

  function Count(t: Tally, fp: Option<string>, dropped: bool): Tally {
    if fp.None? then t
    else Tally(t.seen[fp.value := At(t.seen, fp.value) + 1],
               if dropped then t.kept else t.kept[fp.value := At(t.kept, fp.value) + 1])
  }

  function RunBlob(blob: Blob, e: Event): Blob {
    match e
    case Thrown(fp, access) => Decide(blob, fp, access).1
    case Overwritten(other) => other
  }

  function RunTally(blob: Blob, t: Tally, e: Event): Tally {
    match e
    case Thrown(fp, access) => Count(t, fp, Decide(blob, fp, access).0)
    case Overwritten(_) => t
  }

  /** The blob counts no fingerprint a whole one higher than it was kept, unless that was three times. */
  predicate NeverOverCounts(blob: Blob, t: Tally) {
    forall fp | fp in ReadCounts(blob) :: Honest(Current(ReadCounts(blob), fp), At(t.kept, fp))
  }

  predicate Honest(count: real, kept: nat) {
    count < (kept + 1) as real || kept >= 3
  }

  /** Whatever else happens to the blob, it is lost, damaged or set back, but not counted up. */
  predicate Tolerable(t: Tally, e: Event) {
    e.Overwritten? ==> NeverOverCounts(e.blob, t)
  }

  ghost predicate Reaches(blob: Blob, t: Tally, events: seq<Event>, blob': Blob, t': Tally)
    decreases |events|
  {
    if events == [] then blob' == blob && t' == t
    else Tolerable(t, events[0]) &&
         Reaches(RunBlob(blob, events[0]), RunTally(blob, t, events[0]), events[1..], blob', t')
  }

  function Reports(events: seq<Event>, fp: string): nat {
    if events == [] then 0 else One(IsReportOf(events[0], fp)) + Reports(events[1..], fp)
  }

  /** Those of them that the fuse let through. */
  function Passes(blob: Blob, events: seq<Event>, fp: string): nat
    decreases |events|
  {
    if events == [] then 0
    else
      One(IsReportOf(events[0], fp) && !Decide(blob, events[0].fingerprint, events[0].access).0)
      + Passes(RunBlob(blob, events[0]), events[1..], fp)
  }

  predicate IsReportOf(e: Event, fp: string) {
    e.Thrown? && e.fingerprint == Some(fp)
  }

  function One(b: bool): nat {
    if b then 1 else 0
  }

  /** The tally counts the reports of each fingerprint, and those that were not dropped. */
  lemma {:induction false} TallyCounts(blob: Blob, t: Tally, events: seq<Event>, blob': Blob, t': Tally, fp: string)
    requires Reaches(blob, t, events, blob', t')
    ensures At(t'.seen, fp) == At(t.seen, fp) + Reports(events, fp)
    ensures At(t'.kept, fp) == At(t.kept, fp) + Passes(blob, events, fp)
    decreases |events|
  {
    if events != [] {
      TallyCounts(RunBlob(blob, events[0]), RunTally(blob, t, events[0]), events[1..], blob', t', fp);
    }
  }

  predicate EnoughKept(t: Tally) {
    forall fp | fp in t.seen :: At(t.kept, fp) >= t.seen[fp] || At(t.kept, fp) >= 3
  }

  lemma StepStaysSafe(blob: Blob, t: Tally, e: Event)
    requires NeverOverCounts(blob, t) && EnoughKept(t) && Tolerable(t, e)
    ensures NeverOverCounts(RunBlob(blob, e), RunTally(blob, t, e)) && EnoughKept(RunTally(blob, t, e))
  {
  }

  lemma {:induction false} RunStaysSafe(blob: Blob, t: Tally, events: seq<Event>, blob': Blob, t': Tally)
    requires NeverOverCounts(blob, t) && EnoughKept(t)
    requires Reaches(blob, t, events, blob', t')
    ensures NeverOverCounts(blob', t') && EnoughKept(t')
    decreases |events|
  {
    if events != [] {
      StepStaysSafe(blob, t, events[0]);
      RunStaysSafe(RunBlob(blob, events[0]), RunTally(blob, t, events[0]), events[1..], blob', t');
    }
  }

  /** Under any read failures, write failures and losses: an event is dropped only after three with its
      fingerprint were kept, so of n such events at least the smaller of n and three were kept. */
  lemma DropsOnlyAfterThree(events: seq<Event>, blob: Blob, t: Tally, fp: string, access: Access)
    requires Reaches(Absent, NOTHING, events, blob, t)
    ensures Decide(blob, Some(fp), access).0 ==> At(t.kept, fp) >= 3
    ensures At(t.kept, fp) >= At(t.seen, fp) || At(t.kept, fp) >= 3
  {
    RunStaysSafe(Absent, NOTHING, events, blob, t);
  }

  /** After n more events of one fingerprint, kept k times so far, the next one is dropped too early. */
  predicate DropsEarly(blob: Blob, k: nat, fp: string, n: nat)
    decreases n
  {
    var (dropped, blob') := Decide(blob, Some(fp), WORKING);
    if n == 0 then dropped && k < 3 else DropsEarly(blob', if dropped then k else k + 1, fp, n - 1)
  }

  lemma {:induction false} HonestNeverDropsEarly(blob: Blob, k: nat, fp: string, n: nat)
    requires Honest(Current(ReadCounts(blob), fp), k)
    ensures !DropsEarly(blob, k, fp, n)
    decreases n
  {
    if n > 0 {
      var (dropped, blob') := Decide(blob, Some(fp), WORKING);
      HonestNeverDropsEarly(blob', if dropped then k else k + 1, fp, n - 1);
    }
  }

  lemma {:induction false} OverCountedDropsEarly(blob: Blob, k: nat, fp: string) returns (n: nat)
    requires !Honest(Current(ReadCounts(blob), fp), k)
    ensures DropsEarly(blob, k, fp, n)
    decreases 3 - k
  {
    if Current(ReadCounts(blob), fp) >= SAMPLE_LIMIT {
      n := 0;
    } else {
      var (dropped, blob') := Decide(blob, Some(fp), WORKING);
      var m := OverCountedDropsEarly(blob', k + 1, fp);
      n := m + 1;
      assert DropsEarly(blob, k, fp, n) == DropsEarly(blob', k + 1, fp, m);
    }
  }

  /** What an overwritten blob may say is exact: it makes the fuse drop a fingerprint before three were kept,
      sooner or later, if and only if fewer than three were and it counts the fingerprint to at least one
      more than that. */
  lemma ToleranceIsExact(blob: Blob, k: nat, fp: string)
    ensures (exists n: nat :: DropsEarly(blob, k, fp, n)) <==>
            k < 3 && Current(ReadCounts(blob), fp) >= (k + 1) as real
  {
    if Honest(Current(ReadCounts(blob), fp), k) {
      forall n: nat
        ensures !DropsEarly(blob, k, fp, n)
      {
        HonestNeverDropsEarly(blob, k, fp, n);
      }
    } else {
      var n := OverCountedDropsEarly(blob, k, fp);
      assert exists m: nat :: DropsEarly(blob, k, fp, m);
    }
  }

  // ----- with storage that works -----

  const WORKING := Access(true, true, true)

  function Reported(fps: seq<Option<string>>): seq<Event> {
    if fps == [] then [] else [Thrown(fps[0], WORKING)] + Reported(fps[1..])
  }

  function Capped(n: nat): nat {
    if n < 3 then n else 3
  }

  predicate ExactFor(counts: Counts, t: Tally, fp: string) {
    if fp in counts
    then At(t.seen, fp) > 0 && At(t.kept, fp) == Capped(At(t.seen, fp)) && counts[fp] == Num(At(t.kept, fp) as real)
    else At(t.kept, fp) == At(t.seen, fp) && (At(t.seen, fp) > 0 ==> |counts| == MAX_FINGERPRINTS)
  }

  ghost predicate Exact(blob: Blob, t: Tally) {
    |ReadCounts(blob)| <= MAX_FINGERPRINTS && forall fp :: ExactFor(ReadCounts(blob), t, fp)
  }

  lemma StepStaysExact(blob: Blob, t: Tally, fp: Option<string>)
    requires Exact(blob, t)
    ensures Exact(Decide(blob, fp, WORKING).1, Count(t, fp, Decide(blob, fp, WORKING).0))
  {
    var counts := ReadCounts(blob);
    var (dropped, blob') := Decide(blob, fp, WORKING);
    var t' := Count(t, fp, dropped);
    if fp.Some? {
      assert ExactFor(counts, t, fp.value);
      assert ExactFor(ReadCounts(blob'), t', fp.value);
    }
    forall other
      ensures ExactFor(ReadCounts(blob'), t', other)
    {
      assert ExactFor(counts, t, other);
    }
  }

  lemma {:induction false} RunStaysExact(blob: Blob, t: Tally, fps: seq<Option<string>>, blob': Blob, t': Tally)
    requires Exact(blob, t) && Reaches(blob, t, Reported(fps), blob', t')
    ensures Exact(blob', t')
    decreases |fps|
  {
    if fps != [] {
      StepStaysExact(blob, t, fps[0]);
      var events := Reported(fps);
      assert events[0] == Thrown(fps[0], WORKING) && events[1..] == Reported(fps[1..]);
      RunStaysExact(RunBlob(blob, events[0]), RunTally(blob, t, events[0]), fps[1..], blob', t');
    }
  }

  /** At most fifty fingerprints are tracked; each of those keeps exactly the smaller of n and three of its
      n events, whatever the others do; every other fingerprint keeps all, and exists only once fifty are tracked. */
  lemma FirstThreeOfEachAreKept(fps: seq<Option<string>>, blob: Blob, t: Tally, fp: string)
    requires Reaches(Absent, NOTHING, Reported(fps), blob, t)
    ensures var counts := ReadCounts(blob);
            && |counts| <= 50
            && At(t.kept, fp) == (if fp in counts then Capped(At(t.seen, fp)) else At(t.seen, fp))
            && (At(t.seen, fp) > 0 && |counts| < 50 ==> fp in counts)
  {
    RunStaysExact(Absent, NOTHING, fps, blob, t);
    assert ExactFor(ReadCounts(blob), t, fp);
  }
}
