/** The counters of the loading progress bar. Only the counter logic is
    modelled: the bar's rendering of a status line is not. */
module Progress {

  /** The three counters a status line shows. */
  datatype Status = Status(loaded: nat, updated: nat, skipped: nat)

  /** Every counter of `a` is at most the matching counter of `b`. */
  predicate Le(a: Status, b: Status) {
    a.loaded <= b.loaded && a.updated <= b.updated && a.skipped <= b.skipped
  }

  /** No counter ever goes down from one status line to a later one. */
  predicate NonDecreasing(lines: seq<Status>) {
    forall i, j :: 0 <= i < j < |lines| ==> Le(lines[i], lines[j])
  }

  /** Status lines `lines`, written while the counters rose to `now`: they
      never go backwards and none is ahead of `now`. */
  predicate Steady(lines: seq<Status>, now: Status) {
    NonDecreasing(lines) && forall j :: 0 <= j < |lines| ==> Le(lines[j], now)
  }

  /** Writing a line for counters that have not gone down keeps the lines steady. */
  lemma SteadyExtend(lines: seq<Status>, now: Status, next: Status)
    requires Steady(lines, now) && Le(now, next)
    ensures Steady(lines + [next], next)
  {
    var l := lines + [next];
    forall i, j | 0 <= i < j < |l| ensures Le(l[i], l[j]) {
      if j < |lines| {
        assert l[i] == lines[i] && l[j] == lines[j];
      }
    }
  }

  /** The counters after an update: a non-zero argument replaces its
      counter, a zero argument leaves it as it was. */
  function Apply(s: Status, loaded: nat, updated: nat, skipped: nat): Status {
    Status(if loaded != 0 then loaded else s.loaded,
           if updated != 0 then updated else s.updated,
           if skipped != 0 then skipped else s.skipped)
  }

  /** Updates overwrite rather than accumulate: repeating one changes nothing,
      and an update with all arguments zero is no update. */
  lemma ApplyIdempotent(s: Status, loaded: nat, updated: nat, skipped: nat)
    ensures Apply(Apply(s, loaded, updated, skipped), loaded, updated, skipped)
            == Apply(s, loaded, updated, skipped)
    ensures Apply(s, 0, 0, 0) == s
  {
  }

  /** Reporting counters that have only grown since the last report: the bar
      never goes backwards, never overtakes the counters, and once every
      counter is reported the bar shows exactly the counters. */
  lemma ApplyReports(s: Status, c: Status, loaded: nat, updated: nat, skipped: nat)
    requires Le(s, c)
    requires loaded == 0 || loaded == c.loaded
    requires updated == 0 || updated == c.updated
    requires skipped == 0 || skipped == c.skipped
    ensures Le(s, Apply(s, loaded, updated, skipped))
    ensures Le(Apply(s, loaded, updated, skipped), c)
    ensures Apply(s, c.loaded, c.updated, c.skipped) == c
  {
  }

  class LoadingBar {
    const table: string
    const filename: string
    var loaded: nat
    var updated: nat
    var skipped: nat
    /** The counters shown by each status line written so far. */
    ghost var lines: seq<Status>

    function Current(): Status
      reads this
    {
      Status(loaded, updated, skipped)
    }

    /** The lines written so far never go backwards and none is ahead of
        the counters now held. */
    ghost predicate Monotone()
      reads this
    {
      Steady(lines, Current())
    }

    constructor(table: string, filename: string)
      ensures this.table == table && this.filename == filename
      ensures Current() == Status(0, 0, 0) && lines == []
      ensures Monotone()
    {
      this.table := table;
      this.filename := filename;
      loaded, updated, skipped := 0, 0, 0;
      lines := [];
    }

    /** Sets the counters given non-zero values and writes a status line. */
    method Update(loaded: nat := 0, updated: nat := 0, skipped: nat := 0)
      modifies this
      ensures Current() == Apply(old(Current()), loaded, updated, skipped)
      ensures lines == old(lines) + [Current()]
      ensures old(Monotone()) && Le(old(Current()), Current()) ==> Monotone()
    {
      if loaded != 0 {
        this.loaded := loaded;
      }
      if updated != 0 {
        this.updated := updated;
      }
      if skipped != 0 {
        this.skipped := skipped;
      }
      lines := lines + [Current()];
    }
  }
}
