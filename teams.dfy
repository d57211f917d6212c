/** Teams, the team collection's lookup, and the team audit: a counter per
    known team id that a validation pass bumps for every team it meets and
    then reports on. */
module Teams {
  import opened Wrappers
  import opened Text
  import opened Sorting
  import opened Errors

  datatype Team = Team(id: string, name: string, imageUrl: string)

  /** TeamCollection.GetByID: the team with id `id` earliest in `teams`,
      if any. */
  function GetByID(teams: seq<Team>, id: string): (r: Option<Team>)
    ensures r.Some? ==> r.value.id == id
    ensures r.None? <==> forall i :: 0 <= i < |teams| ==> teams[i].id != id
    ensures forall k :: 0 <= k < |teams| && teams[k].id == id && (forall j :: 0 <= j < k ==> teams[j].id != id)
                        ==> r == Some(teams[k])
  {
    match FirstIndex(teams, (t: Team) => t.id == id)
    case None => None
    case Some(k) => Some(teams[k])
  }

  predicate Distinct(s: seq<string>) {
    forall i, j :: 0 <= i < j < |s| ==> s[i] != s[j]
  }

  function Elems(s: seq<string>): set<string> {
    set x | x in s
  }

  /** `s` without repetitions, each value where it first occurs. */
  function Dedup(s: seq<string>): (r: seq<string>)
    ensures Distinct(r) && Elems(r) == Elems(s)
    decreases |s|
  {
    if s == [] then []
    else
      var init, last := s[..|s| - 1], s[|s| - 1];
      var d := Dedup(init);
      assert s == init + [last];
      assert Elems(s) == Elems(init) + {last};
      if last in d then d
      else
        assert Elems(d + [last]) == Elems(d) + {last};
        d + [last]
  }

  function TeamIds(teams: seq<Team>): (ids: seq<string>)
    ensures |ids| == |teams|
    ensures forall i :: 0 <= i < |teams| ==> ids[i] == teams[i].id
  {
    seq(|teams|, i requires 0 <= i < |teams| => teams[i].id)
  }

  /** Whether a team counted `n` times is reported: in exactly-once mode any
      count other than one, otherwise only a count of zero. */
  predicate Reported(n: nat, exact: bool) {
    if exact then n != 1 else n == 0
  }

  /** The message reporting a team's count. */
  function CountMessage(id: string, n: nat): string {
    "team id '" + id + "': count " + IntToString(n)
  }

  /** A count message names one team and one count. */
  lemma CountMessageInjective(a: string, n: nat, b: string, m: nat)
    requires CountMessage(a, n) == CountMessage(b, m)
    ensures a == b && n == m
  {
    var pre, post := "team id '", "': count ";
    var da, db := IntToString(n), IntToString(m);
    var ha, hb := pre + a + post, pre + b + post;
    var s := ha + da;
    assert s == hb + db;
    assert s[|ha| - 1] == ha[|ha| - 1] == ' ' && s[|hb| - 1] == hb[|hb| - 1] == ' ';
    assert forall p :: |ha| <= p < |s| ==> s[p] == da[p - |ha|];
    assert forall p :: |hb| <= p < |s| ==> s[p] == db[p - |hb|];
    if |da| < |db| {
      assert false;
    } else if |da| > |db| {
      assert false;
    }
    assert |ha| == |hb|;
    assert ha == s[..|ha|] == hb;
    assert da == s[|ha|..] == db;
    assert a == ha[|pre|..|ha| - |post|];
    assert b == hb[|pre|..|hb| - |post|];
    IntToStringInjective(n, m);
  }

  /** The messages for the teams of `ids` that are reported, in that order. */
  function Flagged(ids: seq<string>, counts: map<string, nat>, exact: bool): (r: seq<string>)
    requires forall i :: 0 <= i < |ids| ==> ids[i] in counts
    ensures |r| <= |ids|
    decreases |ids|
  {
    if ids == [] then []
    else
      var init, last := ids[..|ids| - 1], ids[|ids| - 1];
      Flagged(init, counts, exact)
        + (if Reported(counts[last], exact) then [CountMessage(last, counts[last])] else [])
  }

  /** What the audit reports: the flagged messages in ascending order. */
  function Report(ids: seq<string>, counts: map<string, nat>, exact: bool): seq<string>
    requires forall i :: 0 <= i < |ids| ==> ids[i] in counts
  {
    SortStrings(Flagged(ids, counts, exact))
  }

  lemma {:induction false} FlaggedContains(ids: seq<string>, counts: map<string, nat>, exact: bool, id: string, n: nat)
    requires forall i :: 0 <= i < |ids| ==> ids[i] in counts
    ensures CountMessage(id, n) in Flagged(ids, counts, exact)
            <==> id in ids && id in counts && counts[id] == n && Reported(n, exact)
    decreases |ids|
  {
    if ids != [] {
      var init, last := ids[..|ids| - 1], ids[|ids| - 1];
      FlaggedContains(init, counts, exact, id, n);
      assert ids == init + [last];
      if CountMessage(id, n) == CountMessage(last, counts[last]) {
        CountMessageInjective(id, n, last, counts[last]);
      }
    }
  }

  /** The report holds a message for a team and count exactly when that
      team is audited, has that count, and the mode flags it: in
      at-least-once mode a team seen at least once is never reported, in
      exactly-once mode only counts other than one are. */
  lemma ReportContains(ids: seq<string>, counts: map<string, nat>, exact: bool, id: string, n: nat)
    requires forall i :: 0 <= i < |ids| ==> ids[i] in counts
    ensures CountMessage(id, n) in Report(ids, counts, exact)
            <==> id in ids && id in counts && counts[id] == n && Reported(n, exact)
  {
    var flagged := Flagged(ids, counts, exact);
    var report := Report(ids, counts, exact);
    FlaggedContains(ids, counts, exact, id, n);
    assert CountMessage(id, n) in report <==> CountMessage(id, n) in multiset(report);
    assert CountMessage(id, n) in flagged <==> CountMessage(id, n) in multiset(flagged);
  }

  lemma FlaggedStep(ids: seq<string>, counts: map<string, nat>, exact: bool, i: nat)
    requires i < |ids|
    requires forall j :: 0 <= j < |ids| ==> ids[j] in counts
    ensures Flagged(ids[..i + 1], counts, exact)
            == Flagged(ids[..i], counts, exact)
               + (if Reported(counts[ids[i]], exact) then [CountMessage(ids[i], counts[ids[i]])] else [])
  {
    assert ids[..i + 1][..i] == ids[..i];
  }

  /** Every audited id at zero. */
  function ZeroCounts(ids: seq<string>): (r: map<string, nat>)
    ensures r.Keys == Elems(ids)
    ensures forall id :: id in r ==> r[id] == 0
  {
    map id | id in Elems(ids) :: 0
  }

  /** The counts after meeting `team`: its counter goes up by one when it is
      present and audited, and nothing changes otherwise. */
  function Acked(counts: map<string, nat>, team: Option<Team>): (r: map<string, nat>)
    ensures r.Keys == counts.Keys
  {
    if team.Some? && team.value.id in counts then counts[team.value.id := counts[team.value.id] + 1]
    else counts
  }

  /** The counts after meeting each of `seen` in turn. */
  function AckAll(counts: map<string, nat>, seen: seq<Option<Team>>): (r: map<string, nat>)
    ensures r.Keys == counts.Keys
    decreases |seen|
  {
    if seen == [] then counts
    else Acked(AckAll(counts, seen[..|seen| - 1]), seen[|seen| - 1])
  }

  /** How many of `seen` are present with id `id`. */
  function Occurrences(seen: seq<Option<Team>>, id: string): nat
    decreases |seen|
  {
    if seen == [] then 0
    else
      var last := seen[|seen| - 1];
      Occurrences(seen[..|seen| - 1], id) + (if last.Some? && last.value.id == id then 1 else 0)
  }

  lemma AckAllStep(counts: map<string, nat>, seen: seq<Option<Team>>, i: nat)
    requires i < |seen|
    ensures AckAll(counts, seen[..i + 1]) == Acked(AckAll(counts, seen[..i]), seen[i])
  {
    assert seen[..i + 1][..i] == seen[..i];
  }

  /** Meeting teams keeps the audited ids, and leaves every counter up by
      the number of times its team was met. */
  lemma {:induction false} AckAllCounts(counts: map<string, nat>, seen: seq<Option<Team>>, id: string)
    ensures AckAll(counts, seen).Keys == counts.Keys
    ensures id in counts ==> AckAll(counts, seen)[id] == counts[id] + Occurrences(seen, id)
    decreases |seen|
  {
    if seen != [] {
      AckAllCounts(counts, seen[..|seen| - 1], id);
    }
  }

  /** What an audit seeded with `teams` reports after meeting `seen`: a
      message for a team and a count exactly when the team is one of
      `teams`, was met that many times, and the mode flags that count. */
  lemma AuditReport(teams: seq<Team>, seen: seq<Option<Team>>, exact: bool, id: string, n: nat)
    ensures var ids := Dedup(TeamIds(teams));
            var counts := AckAll(ZeroCounts(ids), seen);
            (forall i :: 0 <= i < |ids| ==> ids[i] in counts)
            && (CountMessage(id, n) in Report(ids, counts, exact)
                <==> id in TeamIds(teams) && n == Occurrences(seen, id) && Reported(n, exact))
  {
    var ids := Dedup(TeamIds(teams));
    var counts := AckAll(ZeroCounts(ids), seen);
    AuditCounts(ids, seen, id);
    ReportContains(ids, counts, exact, id, n);
    DedupMember(TeamIds(teams), id);
  }

  /** The counters of a fresh audit after meeting `seen`: one per audited
      id, each the number of times its team was met. */
  lemma AuditCounts(ids: seq<string>, seen: seq<Option<Team>>, id: string)
    ensures forall i :: 0 <= i < |ids| ==> ids[i] in AckAll(ZeroCounts(ids), seen)
    ensures id in ids ==> id in AckAll(ZeroCounts(ids), seen) && AckAll(ZeroCounts(ids), seen)[id] == Occurrences(seen, id)
  {
    var zero := ZeroCounts(ids);
    AckAllCounts(zero, seen, id);
    assert forall i :: 0 <= i < |ids| ==> ids[i] in Elems(ids);
    if id in ids {
      assert id in Elems(ids);
    }
  }

  lemma DedupMember(s: seq<string>, id: string)
    ensures id in Dedup(s) <==> id in s
  {
    assert id in Dedup(s) <==> id in Elems(Dedup(s));
    assert id in s <==> id in Elems(s);
  }

  /** A non-empty flagged list names a team whose count the mode flags. */
  lemma {:induction false} FlaggedWitness(ids: seq<string>, counts: map<string, nat>, exact: bool) returns (i: nat)
    requires forall j :: 0 <= j < |ids| ==> ids[j] in counts
    requires Flagged(ids, counts, exact) != []
    ensures i < |ids| && Reported(counts[ids[i]], exact)
    decreases |ids|
  {
    var init, last := ids[..|ids| - 1], ids[|ids| - 1];
    if Reported(counts[last], exact) {
      i := |ids| - 1;
    } else {
      i := FlaggedWitness(init, counts, exact);
      assert init[i] == ids[i];
    }
  }

  /** The audit seeded with `teams` reports nothing after meeting `seen`
      exactly when no team of `teams` was met a number of times the mode
      flags: in at-least-once mode every team was met, in exactly-once mode
      every team was met once. */
  lemma AuditProblemsEmpty(teams: seq<Team>, seen: seq<Option<Team>>, exact: bool)
    ensures AuditProblems(teams, seen, exact) == []
            <==> forall id :: id in TeamIds(teams) ==> !Reported(Occurrences(seen, id), exact)
  {
    var ids := Dedup(TeamIds(teams));
    var counts := AckAll(ZeroCounts(ids), seen);
    var report := AuditProblems(teams, seen, exact);
    if report == [] {
      forall id | id in TeamIds(teams)
        ensures !Reported(Occurrences(seen, id), exact)
      {
        AuditReport(teams, seen, exact, id, Occurrences(seen, id));
      }
    } else {
      assert forall j :: 0 <= j < |ids| ==> ids[j] in counts by {
        AuditCounts(ids, seen, "");
      }
      assert |multiset(report)| == |multiset(Flagged(ids, counts, exact))|;
      var i := FlaggedWitness(ids, counts, exact);
      var id := ids[i];
      AuditCounts(ids, seen, id);
      DedupMember(TeamIds(teams), id);
    }
  }

  /** What the audit seeded with `teams` reports after meeting `seen`. */
  function AuditProblems(teams: seq<Team>, seen: seq<Option<Team>>, exact: bool): seq<string> {
    var ids := Dedup(TeamIds(teams));
    assert forall i :: 0 <= i < |ids| ==> ids[i] in Elems(ids);
    Report(ids, AckAll(ZeroCounts(ids), seen), exact)
  }

  /** The audit of one validation pass. */
  class TeamsAudit {
    /** The ids of the teams the audit was seeded with, each once. */
    const ids: seq<string>
    var counts: map<string, nat>

    ghost predicate Valid()
      reads this
    {
      Distinct(ids) && counts.Keys == Elems(ids) && (forall i :: 0 <= i < |ids| ==> ids[i] in counts)
    }

    /** An audit of `teams` with every counter at zero. */
    constructor (teams: seq<Team>)
      ensures Valid()
      ensures ids == Dedup(TeamIds(teams))
      ensures counts == ZeroCounts(ids)
    {
      var distinct := Dedup(TeamIds(teams));
      ids := distinct;
      counts := ZeroCounts(distinct);
    }

    /** Counts `team` once if it is one of the audited teams; a nil team or
        an unknown id is refused and changes nothing. */
    method Ack(team: Option<Team>) returns (ok: bool)
      requires Valid()
      modifies this`counts
      ensures Valid()
      ensures ok <==> team.Some? && team.value.id in old(counts)
      ensures ok ==> counts == old(counts)[team.value.id := old(counts)[team.value.id] + 1]
      ensures !ok ==> counts == old(counts)
      ensures counts == Acked(old(counts), team)
    {
      if team.None? || team.value.id !in counts {
        return false;
      }
      counts := counts[team.value.id := counts[team.value.id] + 1];
      return true;
    }

    /** The messages for the reported teams, in the audit's seed order. */
    method Flag(exact: bool) returns (flagged: seq<string>)
      requires Valid()
      ensures flagged == Flagged(ids, counts, exact)
    {
      assert forall i :: 0 <= i < |ids| ==> ids[i] in counts;
      flagged := [];
      var i := 0;
      while i < |ids|
        invariant 0 <= i <= |ids|
        invariant flagged == Flagged(ids[..i], counts, exact)
      {
        FlaggedStep(ids, counts, exact, i);
        var n := counts[ids[i]];
        if Reported(n, exact) {
          flagged := flagged + [CountMessage(ids[i], n)];
        }
        i := i + 1;
      }
      assert ids[..i] == ids;
    }

    /** Adds one message per reported team to `m`, in ascending order. */
    method Validate(m: MultiError, exact: bool)
      requires Valid()
      modifies m.list
      ensures m.list.errs == old(m.list.errs) + ScopedAll(m.prefixes, Report(ids, counts, exact))
    {
      var flagged := Flag(exact);
      var report := SortStrings(flagged);
      m.AddAll(report);
    }
  }
}
