/** SweepstakeCollection: validateSweepstakes, which checks a collection of
    sweepstakes for repeated ids and validates each one. */
module SweepstakeCollection {
  import opened Wrappers
  import opened Text
  import opened Errors
  import opened Teams
  import opened Tournaments
  import opened Sweepstakes
  import Matches

  /** What the validation of one sweepstake depends on: its own fields and
      the teams of its tournament. */
  datatype Entry = Entry(id: string, name: string, imageUrl: string, teams: seq<Team>, participants: seq<Participant>)

  function EntryOf(s: Sweepstake): Entry
    requires s.tournament != null
    reads s
  {
    Entry(s.id, s.name, s.imageUrl, s.tournament.teams, s.participants)
  }

  /** Every sweepstake has its tournament. */
  predicate Linked(ss: seq<Sweepstake>)
    reads ss
  {
    forall i :: 0 <= i < |ss| ==> ss[i].tournament != null
  }

  /** Two positions never hold the same sweepstake. */
  predicate Separate(ss: seq<Sweepstake>) {
    forall i, j :: 0 <= i < j < |ss| ==> ss[i] != ss[j]
  }

  function Entries(ss: seq<Sweepstake>): (r: seq<Entry>)
    requires Linked(ss)
    reads ss
    ensures |r| == |ss|
    ensures forall i :: 0 <= i < |ss| ==> r[i] == EntryOf(ss[i])
    decreases |ss|
  {
    if ss == [] then [] else Entries(ss[..|ss| - 1]) + [EntryOf(ss[|ss| - 1])]
  }

  /** An entry as validateSweepstake leaves it: the id, name, image url and
      every participant trimmed. */
  function Validated(e: Entry): (r: Entry)
    ensures r.teams == e.teams && |r.participants| == |e.participants|
  {
    Entry(Trim(e.id, ' '), Trim(e.name, ' '), Trim(e.imageUrl, ' '), e.teams, TrimParticipants(e.participants))
  }

  /** Validating again changes nothing. */
  lemma ValidatedIdempotent(e: Entry)
    ensures Validated(Validated(e)) == Validated(e)
  {
    TrimIdempotent(e.id, ' ');
    TrimIdempotent(e.name, ' ');
    TrimIdempotent(e.imageUrl, ' ');
    TrimParticipantsIdempotent(e.participants);
  }

  /** The raw ids of the entries, in order. */
  function EntryIds(es: seq<Entry>): (r: seq<string>)
    ensures |r| == |es|
    decreases |es|
  {
    if es == [] then [] else EntryIds(es[..|es| - 1]) + [es[|es| - 1].id]
  }

  lemma {:induction false} EntryIdsIndex(es: seq<Entry>)
    ensures forall i :: 0 <= i < |es| ==> EntryIds(es)[i] == es[i].id
    decreases |es|
  {
    if es != [] {
      EntryIdsIndex(es[..|es| - 1]);
    }
  }

  /** The problems of one entry, under the root. */
  function EntryProblems(e: Entry): seq<string> {
    SweepstakeProblems(e.id, e.name, e.imageUrl, e.teams, e.participants)
  }

  /** The duplicate report for `id` when an earlier entry had it. */
  function DuplicateOf(earlier: seq<string>, id: string): (r: seq<string>)
    ensures r == [] <==> id !in earlier
  {
    if id in earlier then [DuplicateMessage(id)] else []
  }

  /** The problems of each entry, in order. */
  function OwnProblems(es: seq<Entry>): (r: seq<seq<string>>)
    ensures |r| == |es|
  {
    MapSeq(EntryProblems, es)
  }

  /** For each id in turn, the report of an id already met, then that
      position's own problems. */
  function Collected(ids: seq<string>, own: seq<seq<string>>): seq<string>
    requires |ids| == |own|
    decreases |ids|
  {
    if ids == [] then []
    else
      var n := |ids| - 1;
      Collected(ids[..n], own[..n]) + (DuplicateOf(ids[..n], ids[n]) + own[n])
  }

  lemma CollectedStep(ids: seq<string>, own: seq<seq<string>>, i: nat)
    requires |ids| == |own| && i < |ids|
    ensures Collected(ids[..i + 1], own[..i + 1])
            == Collected(ids[..i], own[..i]) + (DuplicateOf(ids[..i], ids[i]) + own[i])
  {
    assert ids[..i + 1][..i] == ids[..i];
    assert own[..i + 1][..i] == own[..i];
  }

  /** The last position adds nothing exactly when its id is new and it has
      no problem of its own. */
  lemma CollectedLast(ids: seq<string>, own: seq<seq<string>>)
    requires |ids| == |own| && ids != []
    ensures var n := |ids| - 1;
            Collected(ids, own) == [] <==> Collected(ids[..n], own[..n]) == [] && ids[n] !in ids[..n] && own[n] == []
  {
  }

  lemma OwnSplit(own: seq<seq<string>>, init: seq<seq<string>>)
    requires own != [] && init == own[..|own| - 1]
    ensures (forall i :: 0 <= i < |own| ==> own[i] == [])
            <==> (forall i :: 0 <= i < |init| ==> init[i] == []) && own[|own| - 1] == []
  {
    assert forall i :: 0 <= i < |init| ==> init[i] == own[i];
  }

  /** Nothing is collected exactly when the ids are distinct and no position
      has a problem of its own. */
  lemma {:induction false} CollectedEmpty(ids: seq<string>, own: seq<seq<string>>)
    requires |ids| == |own|
    ensures Collected(ids, own) == [] <==> Distinct(ids) && forall i :: 0 <= i < |own| ==> own[i] == []
    decreases |ids|
  {
    if ids != [] {
      var n := |ids| - 1;
      CollectedEmpty(ids[..n], own[..n]);
      CollectedLast(ids, own);
      OwnSplit(own, own[..n]);
      Matches.DistinctLast(ids);
    }
  }

  /** Every problem of validateSweepstakes, in order: for each entry, first
      the report of an id an earlier entry already had (compared before
      trimming), then the problems of validateSweepstake. */
  function SweepstakesProblems(es: seq<Entry>): seq<string> {
    Collected(EntryIds(es), OwnProblems(es))
  }

  lemma SweepstakesProblemsStep(es: seq<Entry>, i: nat)
    requires i < |es|
    ensures SweepstakesProblems(es[..i + 1])
            == SweepstakesProblems(es[..i]) + (DuplicateOf(EntryIds(es[..i]), es[i].id) + EntryProblems(es[i]))
  {
    var pre := es[..i + 1];
    assert pre[..i] == es[..i];
    var ids, own := EntryIds(pre), OwnProblems(pre);
    assert ids[..i] == EntryIds(es[..i]) && ids[i] == es[i].id;
    MapSeqSnoc(EntryProblems, es, i);
  }

  lemma OwnEmptyEntries(es: seq<Entry>, own: seq<seq<string>>)
    requires own == OwnProblems(es)
    requires forall i :: 0 <= i < |own| ==> own[i] == []
    ensures forall i :: 0 <= i < |es| ==> EntryProblems(es[i]) == []
  {
    forall i | 0 <= i < |es|
      ensures EntryProblems(es[i]) == []
    {
      MapSeqAt(EntryProblems, es, i);
      assert own[i] == [];
    }
  }

  lemma EntriesEmptyOwn(es: seq<Entry>, own: seq<seq<string>>)
    requires own == OwnProblems(es)
    requires forall i :: 0 <= i < |es| ==> EntryProblems(es[i]) == []
    ensures forall i :: 0 <= i < |own| ==> own[i] == []
  {
    forall i | 0 <= i < |own|
      ensures own[i] == []
    {
      MapSeqAt(EntryProblems, es, i);
      assert EntryProblems(es[i]) == [];
    }
  }

  /** A collection is accepted exactly when its raw ids are distinct and no
      sweepstake has a problem of its own. */
  lemma SweepstakesProblemsEmpty(es: seq<Entry>)
    ensures SweepstakesProblems(es) == []
            <==> Distinct(EntryIds(es)) && forall i :: 0 <= i < |es| ==> EntryProblems(es[i]) == []
  {
    var own := OwnProblems(es);
    CollectedEmpty(EntryIds(es), own);
    if forall i :: 0 <= i < |own| ==> own[i] == [] {
      OwnEmptyEntries(es, own);
    }
    if forall i :: 0 <= i < |es| ==> EntryProblems(es[i]) == [] {
      EntriesEmptyOwn(es, own);
    }
  }

  /** Reports `id` through a view labelled with it when it was already seen,
      as validateSweepstakes adds ErrIsDuplicate. */
  method MarkDuplicate(id: string, seen: set<string>, m: MultiError)
    requires m.prefixes == []
    modifies m.list
    ensures m.list.errs == old(m.list.errs) + (if id in seen then [DuplicateMessage(id)] else [])
  {
    var view := m.WithPrefix("id '" + id + "'");
    if id in seen {
      view.Add(Some(ErrIsDuplicate));
      assert Scoped(view.prefixes, ErrIsDuplicate) == AddPrefix("id '" + id + "'", ErrIsDuplicate);
    }
  }

  lemma EntryIdsStep(es: seq<Entry>, i: nat)
    requires i < |es|
    ensures EntryIds(es[..i + 1]) == EntryIds(es[..i]) + [es[i].id]
  {
    assert es[..i + 1][..i] == es[..i];
  }

  lemma ElemsSnoc(ids: seq<string>, x: string)
    ensures Elems(ids + [x]) == Elems(ids) + {x}
    ensures x in Elems(ids) <==> x in ids
  {
  }

  /** One round of validateSweepstakes, on the sweepstake `s` after the raw
      ids `earlier`: the duplicate check on its raw id, then
      validateSweepstake at the root. */
  method ValidateOne(s: Sweepstake, seen: set<string>, m: MultiError, ghost earlier: seq<string>, ghost e: Entry)
      returns (seen': set<string>)
    requires s.tournament != null && EntryOf(s) == e
    requires seen == Elems(earlier) && m.prefixes == []
    modifies s`id, s`name, s`imageUrl, s`participants, m.list
    ensures seen' == Elems(earlier + [e.id])
    ensures m.list.errs == old(m.list.errs) + (DuplicateOf(earlier, e.id) + EntryProblems(e))
    ensures EntryOf(s) == Validated(e)
  {
    var id := s.id;
    ElemsSnoc(earlier, id);
    MarkDuplicate(id, seen, m);
    seen' := seen + {id};
    ValidateSweepstake(s, m);
    ghost var own := EntryProblems(e);
    assert own == SweepstakeProblems(e.id, e.name, e.imageUrl, e.teams, e.participants);
    ScopedAllRoot(own);
    AppendAssoc(old(m.list.errs), DuplicateOf(earlier, id), own);
  }

  lemma Untouched(ss: seq<Sweepstake>, idx: nat)
    requires Separate(ss) && idx < |ss|
    ensures forall j :: 0 <= j < |ss| && j != idx ==> ss[j] != ss[idx]
  {
    forall j | 0 <= j < |ss| && j != idx
      ensures ss[j] != ss[idx]
    {
      if j < idx { assert ss[j] != ss[idx]; } else { assert ss[idx] != ss[j]; }
    }
  }

  /** The sweepstakes before `idx` hold their entries of `es` validated,
      the others hold them as they were. */
  predicate ShowsUpTo(ss: seq<Sweepstake>, es: seq<Entry>, idx: nat)
    reads ss
  {
    Linked(ss) && |es| == |ss|
    && forall j :: 0 <= j < |ss| ==> EntryOf(ss[j]) == if j < idx then Validated(es[j]) else es[j]
  }

  /** `own[j]` holds the problems of the entry `es[j]`. */
  ghost predicate ProblemsAt(es: seq<Entry>, own: seq<seq<string>>, j: nat) {
    j < |es| && j < |own| && own[j] == EntryProblems(es[j])
  }

  /** `own` holds the problems of each entry of `es`. The quantifier is
      instantiated only where a position is asked for, which keeps the
      problems of the other entries out of a proof. */
  ghost predicate Owns(es: seq<Entry>, own: seq<seq<string>>) {
    |own| == |es| && forall j {:trigger ProblemsAt(es, own, j)} :: 0 <= j < |es| ==> ProblemsAt(es, own, j)
  }

  lemma OwnsProblems(es: seq<Entry>)
    ensures Owns(es, OwnProblems(es))
  {
    forall j | 0 <= j < |es|
      ensures ProblemsAt(es, OwnProblems(es), j)
    {
      MapSeqAt(EntryProblems, es, j);
    }
  }

  /** Round `idx` of validateSweepstakes, stated on the whole collection:
      the sweepstake at `idx` is checked and validated, every other one is
      left as it was. */
  method ValidateAt(ss: seq<Sweepstake>, idx: nat, s: Sweepstake, seen: set<string>, m: MultiError,
                    ghost es: seq<Entry>, ghost earlier: seq<string>, ghost own: seq<seq<string>>)
      returns (seen': set<string>)
    requires Separate(ss) && ShowsUpTo(ss, es, idx) && idx < |ss| && s == ss[idx]
    requires seen == Elems(earlier) && m.prefixes == [] && ProblemsAt(es, own, idx)
    modifies s`id, s`name, s`imageUrl, s`participants, m.list
    ensures ShowsUpTo(ss, es, idx + 1)
    ensures seen' == Elems(earlier + [es[idx].id])
    ensures m.list.errs == old(m.list.errs) + (DuplicateOf(earlier, es[idx].id) + own[idx])
  {
    Untouched(ss, idx);
    seen' := ValidateOne(s, seen, m, earlier, es[idx]);
    forall j | 0 <= j < |ss|
      ensures ss[j].tournament != null && EntryOf(ss[j]) == if j < idx + 1 then Validated(es[j]) else es[j]
    {
      if j != idx {
        assert ss[j] != s;
        assert old(EntryOf(ss[j])) == if j < idx then Validated(es[j]) else es[j];
      }
    }
  }

  /** The state of the loop of validateSweepstakes before round `idx`: the
      raw ids seen so far, the problems collected so far, and the
      sweepstakes before `idx` validated. */
  ghost predicate EachProgress(ss: seq<Sweepstake>, es: seq<Entry>, ids: seq<string>, own: seq<seq<string>>,
                               idx: nat, seen: set<string>, m: MultiError)
    reads ss, m.list
  {
    && idx <= |ss| && |ids| == |ss| && |own| == |ss|
    && m.prefixes == []
    && seen == Elems(ids[..idx])
    && m.list.errs == Collected(ids[..idx], own[..idx])
    && ShowsUpTo(ss, es, idx)
  }

  /** Round `idx` of the loop of validateSweepstakes: the problems collected
      so far grow by those of position `idx`. */
  method ValidateStep(ss: seq<Sweepstake>, idx: nat, s: Sweepstake, seen: set<string>, m: MultiError,
                      ghost es: seq<Entry>, ghost ids: seq<string>, ghost own: seq<seq<string>>)
      returns (seen': set<string>)
    requires Separate(ss) && idx < |ss| && s == ss[idx]
    requires ids == EntryIds(es) && Owns(es, own)
    requires EachProgress(ss, es, ids, own, idx, seen, m)
    modifies s`id, s`name, s`imageUrl, s`participants, m.list
    ensures EachProgress(ss, es, ids, own, idx + 1, seen', m)
  {
    EntryIdsIndex(es);
    CollectedStep(ids, own, idx);
    TakeSnoc(ids, idx);
    ghost var known := ProblemsAt(es, own, idx);
    assert known;
    seen' := ValidateAt(ss, idx, s, seen, m, es, ids[..idx], own);
  }

  /** The loop of validateSweepstakes: each sweepstake in turn gets the
      duplicate check on its raw id and is then validated in place. */
  method ValidateEach(ss: seq<Sweepstake>, ghost es: seq<Entry>, ghost own: seq<seq<string>>) returns (m: MultiError)
    requires Separate(ss) && ShowsUpTo(ss, es, 0) && Owns(es, own)
    modifies ss`id, ss`name, ss`imageUrl, ss`participants
    ensures m.prefixes == [] && m.list.errs == Collected(EntryIds(es), own)
    ensures ShowsUpTo(ss, es, |ss|)
  {
    ghost var ids := EntryIds(es);
    EntryIdsIndex(es);
    var seen: set<string> := {};
    m := new MultiError();
    var idx := 0;
    assert ids[..0] == [] && own[..0] == [];
    while idx < |ss|
      invariant fresh(m.list)
      invariant EachProgress(ss, es, ids, own, idx, seen, m)
    {
      seen := ValidateStep(ss, idx, ss[idx], seen, m, es, ids, own);
      idx := idx + 1;
    }
    TakeAll(ids, idx);
    TakeAll(own, idx);
  }

  /** validateSweepstakes: every sweepstake is validated in place, and the
      collection is returned only when no sweepstake repeats an earlier id
      and none has a problem; otherwise the error aggregates every problem.
      The sweepstakes are left validated in both cases. */
  method ValidateSweepstakes(ss: seq<Sweepstake>) returns (r: Result<seq<Sweepstake>, Failure>)
    requires Linked(ss) && Separate(ss)
    modifies ss`id, ss`name, ss`imageUrl, ss`participants
    ensures Linked(ss)
    ensures var problems := SweepstakesProblems(old(Entries(ss)));
            (r.Success? <==> problems == [])
            && (r.Success? ==> r.value == ss)
            && (r.Failure? ==> r.error == Aggregate(problems))
    ensures forall i :: 0 <= i < |ss| ==> EntryOf(ss[i]) == Validated(old(EntryOf(ss[i])))
  {
    ghost var es := Entries(ss);
    OwnsProblems(es);
    var m := ValidateEach(ss, es, OwnProblems(es));
    assert forall i :: 0 <= i < |ss| ==> EntryOf(ss[i]) == Validated(es[i]);
    if !m.IsEmpty() {
      return Failure(Aggregate(m.list.errs));
    }
    return Success(ss);
  }
}
