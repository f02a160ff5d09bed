/**
 * Scan.waived_on_time of covscanhub/scan/models.py: has the owner of a
 * finished scan processed it, or is there still time to? Times are seconds;
 * the overdue period `d` comes from the release-specific setting, falling
 * back to the default setting on a missing release tag.
 */
module Overdue {
  import opened Wrappers
  import opened ScanStates
  import opened Scans

  /** What waived_on_time raises. */
  datatype OverdueError =
    | DefaultMissing   // the KeyError fallback found no WAIVER_IS_OVERDUE setting
    | DUnbound         // a lookup failure other than KeyError left `d` unassigned
    | NoLastAccess     // last_access is NULL and cannot be compared with a time

  /**
   * The release-specific overdue periods as decoded from
   * WAIVER_IS_OVERDUE_RELSPEC, or None when reading them (or the scan's
   * release tag) failed with an exception other than KeyError.
   */
  type Relspec = Option<map<string, int>>

  /**
   * The overdue period: Success(Some(d)) when found, Success(None) when the
   * lookup failed and `d` stays unbound, Failure when the fallback raised.
   */
  function OverduePeriod(tag: Option<TagRef>, relspec: Relspec, default: Option<int>): (r: Result<Option<int>, OverdueError>)
    ensures tag.Some? && relspec.Some? && tag.value.releaseTag in relspec.value ==>
      r == Success(Some(relspec.value[tag.value.releaseTag]))
    ensures tag.Some? && relspec.Some? && tag.value.releaseTag !in relspec.value ==>
      (r.Success? <==> default.Some?) && (default.Some? ==> r.value == Some(default.value))
    ensures tag.None? || relspec.None? ==> r == Success(None)
    ensures r.Failure? ==> r == Failure(DefaultMissing)
  {
    if tag.None? || relspec.None? then Success(None)
    else if tag.value.releaseTag in relspec.value then Success(Some(relspec.value[tag.value.releaseTag]))
    else match default
      case None => Failure(DefaultMissing)
      case Some(d) => Success(Some(d))
  }

  /** A scan that finished neither badly nor processed: its owner still has to waive it. */
  predicate AwaitsWaiver(s: ScanState)
  {
    s !in FinishedBad && s !in Processed
  }

  /**
   * waived_on_time as written: None for a scan that finished badly; True for
   * a processed scan; otherwise `last_access > now + d`, which holds only
   * when the last access lies more than `d` in the future.
   */
  function WaivedOnTimeAsWritten(scan: Scan, now: int, relspec: Relspec, default: Option<int>): (r: Result<Option<bool>, OverdueError>)
    ensures r == Success(None) <==> scan.state in FinishedBad
    ensures scan.state in Processed && OverduePeriod(scan.tag, relspec, default).Success? ==> r == Success(Some(true))
    ensures OverduePeriod(scan.tag, relspec, default).Failure? && scan.state !in FinishedBad ==> r == Failure(DefaultMissing)
    ensures AwaitsWaiver(scan.state) && OverduePeriod(scan.tag, relspec, default) == Success(None) ==> r == Failure(DUnbound)
    ensures (AwaitsWaiver(scan.state) && OverduePeriod(scan.tag, relspec, default).Success? &&
             OverduePeriod(scan.tag, relspec, default).value.Some?) ==>
        if scan.lastAccess.None? then r == Failure(NoLastAccess)
        else r == Success(Some(scan.lastAccess.value > now + OverduePeriod(scan.tag, relspec, default).value.value))
  {
    StateSetRelations();
    if scan.state in FinishedBad then Success(None)
    else match OverduePeriod(scan.tag, relspec, default)
      case Failure(e) => Failure(e)
      case Success(d) =>
        if scan.state in Processed then Success(Some(true))
        else if d.None? then Failure(DUnbound)
        else if scan.lastAccess.None? then Failure(NoLastAccess)
        else Success(Some(scan.lastAccess.value > now + d.value))
  }

  /**
   * waived_on_time as its documentation describes it: the owner still has
   * time while now has not passed last_access + d, the deadline included.
   */
  function WaivedOnTime(scan: Scan, now: int, relspec: Relspec, default: Option<int>): (r: Result<Option<bool>, OverdueError>)
    ensures r == Success(None) <==> scan.state in FinishedBad
    ensures scan.state in Processed && OverduePeriod(scan.tag, relspec, default).Success? ==> r == Success(Some(true))
    ensures OverduePeriod(scan.tag, relspec, default).Failure? && scan.state !in FinishedBad ==> r == Failure(DefaultMissing)
    ensures AwaitsWaiver(scan.state) && OverduePeriod(scan.tag, relspec, default) == Success(None) ==> r == Failure(DUnbound)
    ensures (AwaitsWaiver(scan.state) && OverduePeriod(scan.tag, relspec, default).Success? &&
             OverduePeriod(scan.tag, relspec, default).value.Some?) ==>
        if scan.lastAccess.None? then r == Failure(NoLastAccess)
        else r == Success(Some(now <= scan.lastAccess.value + OverduePeriod(scan.tag, relspec, default).value.value))
  {
    StateSetRelations();
    if scan.state in FinishedBad then Success(None)
    else match OverduePeriod(scan.tag, relspec, default)
      case Failure(e) => Failure(e)
      case Success(d) =>
        if scan.state in Processed then Success(Some(true))
        else if d.None? then Failure(DUnbound)
        else if scan.lastAccess.None? then Failure(NoLastAccess)
        else Success(Some(scan.lastAccess.value + d.value >= now))
  }

  /** The default period is only consulted when the release tag has no period of its own. */
  lemma RelspecOverridesDefault(scan: Scan, now: int, relspec: map<string, int>, d1: Option<int>, d2: Option<int>)
    requires scan.tag.Some? && scan.tag.value.releaseTag in relspec
    ensures WaivedOnTime(scan, now, Some(relspec), d1) == WaivedOnTime(scan, now, Some(relspec), d2)
    ensures WaivedOnTimeAsWritten(scan, now, Some(relspec), d1) == WaivedOnTimeAsWritten(scan, now, Some(relspec), d2)
  {
  }

  /**
   * The written comparison misjudges the plainest case: a scan needing
   * inspection, accessed just now, with a positive overdue period, is
   * reported as not processed on time, while it still has `d` seconds left.
   */
  lemma AsWrittenIsOverdueAtOnce(scan: Scan, now: int, relspec: map<string, int>)
    requires scan.state == NeedsInspection && scan.lastAccess == Some(now)
    requires scan.tag.Some? && scan.tag.value.releaseTag in relspec && relspec[scan.tag.value.releaseTag] > 0
    ensures WaivedOnTimeAsWritten(scan, now, Some(relspec), None) == Success(Some(false))
    ensures WaivedOnTime(scan, now, Some(relspec), None) == Success(Some(true))
  {
  }

  /** As written, a scan not yet processed is never on time unless it was accessed in the future. */
  lemma AsWrittenNeedsFutureAccess(scan: Scan, now: int, relspec: Relspec, default: Option<int>, d: int)
    requires scan.state !in FinishedBad && scan.state !in Processed
    requires OverduePeriod(scan.tag, relspec, default) == Success(Some(d)) && d >= 0
    requires WaivedOnTimeAsWritten(scan, now, relspec, default) == Success(Some(true))
    ensures scan.lastAccess.Some? && scan.lastAccess.value > now
  {
  }

  /**
   * Corrected reading: a scan on time at some moment was on time at every
   * earlier moment.
   */
  lemma OnTimeUntilDeadline(scan: Scan, now1: int, now2: int, relspec: Relspec, default: Option<int>)
    requires now1 <= now2
    requires WaivedOnTime(scan, now2, relspec, default) == Success(Some(true))
    ensures WaivedOnTime(scan, now1, relspec, default) == Success(Some(true))
  {
  }

  /** Corrected reading: a scan awaiting its waiver is on time up to and including last_access + d. */
  lemma OnTimeBeforeDeadline(scan: Scan, now: int, relspec: Relspec, default: Option<int>, d: int)
    requires AwaitsWaiver(scan.state) && scan.lastAccess.Some?
    requires OverduePeriod(scan.tag, relspec, default) == Success(Some(d))
    requires now <= scan.lastAccess.value + d
    ensures WaivedOnTime(scan, now, relspec, default) == Success(Some(true))
  {
  }

  /** Corrected reading: a scan awaiting its waiver is overdue once now is past last_access + d. */
  lemma OverdueAfterDeadline(scan: Scan, now: int, relspec: Relspec, default: Option<int>, d: int)
    requires AwaitsWaiver(scan.state) && scan.lastAccess.Some?
    requires OverduePeriod(scan.tag, relspec, default) == Success(Some(d))
    requires now > scan.lastAccess.value + d
    ensures WaivedOnTime(scan, now, relspec, default) == Success(Some(false))
  {
  }
}
