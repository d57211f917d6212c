/** SweepstakeLoader: what SweepstakesJSONLoader does once the sweepstakes
    are decoded. It checks its own settings, refuses an empty list, links
    each sweepstake to its tournament by id, and validates the collection. */
module SweepstakeLoader {
  import opened Wrappers
  import opened Text
  import opened Errors
  import opened Tournaments
  import opened Sweepstakes
  import opened SweepstakeCollection

  /** SweepstakesJSONLoader.init: the tournament collection is checked
      first, then the byte source. */
  function LoaderInit(hasTournaments: bool, hasSource: bool): (r: Option<string>)
    ensures r.None? <==> hasTournaments && hasSource
    ensures !hasTournaments ==> r == Some("tournaments: is empty")
    ensures hasTournaments && !hasSource ==> r == Some("source: is empty")
  {
    if !hasTournaments then
      assert Wrap("tournaments", ErrIsEmpty) == "tournaments: is empty";
      Some(Wrap("tournaments", ErrIsEmpty))
    else if !hasSource then
      assert Wrap("source", ErrIsEmpty) == "source: is empty";
      Some(Wrap("source", ErrIsEmpty))
    else None
  }

  const NoSweepstakes: string := "no sweepstakes found in source data"

  /** The error for a sweepstake whose tournament id names no tournament. */
  function UnknownTournament(idx: nat, tid: string): Failure {
    Wrapped("sweepstake index " + NatToString(idx) + ": tournament id '" + tid + "'", Simple(ErrNotFound))
  }

  /** The first position whose tournament id names no tournament in `ts`. */
  function FirstUnknown(tids: seq<string>, ts: seq<Tournament?>): (r: Option<nat>)
    reads ts
    ensures r.Some? ==> r.value < |tids| && GetByID(ts, tids[r.value]) == null
    ensures r.Some? ==> forall j :: 0 <= j < r.value ==> GetByID(ts, tids[j]) != null
    ensures r.None? <==> AllKnown(tids, ts)
    decreases |tids|
  {
    if tids == [] then None
    else if GetByID(ts, tids[0]) == null then Some(0)
    else match FirstUnknown(tids[1..], ts)
      case None => None
      case Some(k) => Some(k + 1)
  }

  /** The number of sweepstakes the link loop visits: up to the first
      unknown tournament id, or all of them. */
  function Reached(tids: seq<string>, ts: seq<Tournament?>): (n: nat)
    reads ts
    ensures n <= |tids|
  {
    match FirstUnknown(tids, ts)
    case None => |tids|
    case Some(k) => k
  }

  /** Every tournament id names a tournament in `ts`. */
  predicate AllKnown(tids: seq<string>, ts: seq<Tournament?>)
    reads ts
  {
    forall j :: 0 <= j < |tids| ==> GetByID(ts, tids[j]) != null
  }

  /** What validateSweepstakes receives for each decoded sweepstake once
      every tournament id is found: its own fields and its tournament's
      teams. */
  function LinkedEntries(ss: seq<Sweepstake>, tids: seq<string>, ts: seq<Tournament?>): (r: seq<Entry>)
    requires |tids| == |ss| && AllKnown(tids, ts)
    reads ss, ts
    ensures |r| == |ss|
    ensures forall i :: 0 <= i < |ss| ==>
              r[i] == Entry(ss[i].id, ss[i].name, ss[i].imageUrl, GetByID(ts, tids[i]).teams, ss[i].participants)
  {
    seq(|ss|, i requires 0 <= i < |ss| && GetByID(ts, tids[i]) != null reads ss, ts =>
      Entry(ss[i].id, ss[i].name, ss[i].imageUrl, GetByID(ts, tids[i]).teams, ss[i].participants))
  }

  /** The loop of LoadSweepstakes: each sweepstake in turn is given the
      tournament its id names, stopping at the first id that names none. */
  method LinkTournaments(ss: seq<Sweepstake>, tids: seq<string>, ts: seq<Tournament?>)
      returns (unknown: Option<nat>, collection: seq<Sweepstake>)
    requires |tids| == |ss| && Separate(ss)
    modifies ss`tournament
    ensures unknown == old(FirstUnknown(tids, ts))
    ensures unknown.None? ==> collection == ss
    ensures forall i :: 0 <= i < |ss| ==>
              ss[i].tournament == if i < old(Reached(tids, ts)) then old(GetByID(ts, tids[i])) else old(ss[i].tournament)
  {
    collection := [];
    var idx := 0;
    while idx < |ss|
      invariant 0 <= idx <= |ss| && collection == ss[..idx]
      invariant forall j :: 0 <= j < idx ==> old(GetByID(ts, tids[j])) != null
      invariant forall i :: 0 <= i < |ss| ==>
                  ss[i].tournament == if i < idx then old(GetByID(ts, tids[i])) else old(ss[i].tournament)
    {
      var t := GetByID(ts, tids[idx]);
      assert t == old(GetByID(ts, tids[idx]));
      if t == null {
        assert old(FirstUnknown(tids, ts)) == Some(idx) by {
          FirstUnknownAt(tids, ts, idx);
        }
        return Some(idx), [];
      }
      ss[idx].tournament := t;
      collection := collection + [ss[idx]];
      idx := idx + 1;
    }
    assert old(FirstUnknown(tids, ts)) == None by {
      FirstUnknownNone(tids, ts);
    }
    TakeAll(ss, idx);
    return None, collection;
  }

  /** An unknown id at `k` after known ones is the first unknown. */
  lemma {:induction false} FirstUnknownAt(tids: seq<string>, ts: seq<Tournament?>, k: nat)
    requires k < |tids| && GetByID(ts, tids[k]) == null
    requires forall j :: 0 <= j < k ==> GetByID(ts, tids[j]) != null
    ensures FirstUnknown(tids, ts) == Some(k)
    decreases k
  {
    if k > 0 {
      FirstUnknownAt(tids[1..], ts, k - 1);
    }
  }

  /** With every id known there is no first unknown. */
  lemma {:induction false} FirstUnknownNone(tids: seq<string>, ts: seq<Tournament?>)
    requires AllKnown(tids, ts)
    ensures FirstUnknown(tids, ts) == None
    decreases |tids|
  {
    if tids != [] {
      FirstUnknownNone(tids[1..], ts);
    }
  }

  /** LoadSweepstakes after decoding: `ss` are the decoded sweepstakes and
      `tids` their tournament ids. An empty list is refused; the first
      tournament id that names no tournament aborts the load; otherwise
      every sweepstake gets its tournament and the collection is
      validated. */
  method LoadSweepstakes(ss: seq<Sweepstake>, tids: seq<string>, ts: seq<Tournament?>)
      returns (r: Result<seq<Sweepstake>, Failure>)
    requires |tids| == |ss| && Separate(ss)
    modifies ss`tournament, ss`id, ss`name, ss`imageUrl, ss`participants
    ensures ss == [] ==> r == Failure(Simple(NoSweepstakes))
    ensures ss != [] && old(FirstUnknown(tids, ts)).Some? ==>
              var k := old(FirstUnknown(tids, ts)).value;
              r == Failure(UnknownTournament(k, tids[k]))
              && forall i :: 0 <= i < |ss| ==>
                   && ss[i].tournament == (if i < k then old(GetByID(ts, tids[i])) else old(ss[i].tournament))
                   && ss[i].id == old(ss[i].id) && ss[i].name == old(ss[i].name)
                   && ss[i].imageUrl == old(ss[i].imageUrl) && ss[i].participants == old(ss[i].participants)
    ensures ss != [] && old(AllKnown(tids, ts)) ==>
              Linked(ss)
              && (forall i :: 0 <= i < |ss| ==> ss[i].tournament == old(GetByID(ts, tids[i])))
              && var problems := SweepstakesProblems(old(LinkedEntries(ss, tids, ts)));
                 (r.Success? <==> problems == [])
                 && (r.Success? ==> r.value == ss)
                 && (r.Failure? ==> r.error == Aggregate(problems))
  {
    if |ss| == 0 {
      return Failure(Simple(NoSweepstakes));
    }
    ghost var first := FirstUnknown(tids, ts);
    ghost var known := AllKnown(tids, ts);
    assert first.None? <==> known;
    var unknown, collection := LinkAll(ss, tids, ts);
    if unknown.Some? {
      assert !known;
      return Failure(UnknownTournament(unknown.value, tids[unknown.value]));
    }
    assert known;
    r := ValidateLinked(collection, old(LinkedEntries(ss, tids, ts)));
  }

  /** validateSweepstakes on sweepstakes just linked, whose entries are
      `linked`; their tournaments stay as linked. */
  method ValidateLinked(ss: seq<Sweepstake>, ghost linked: seq<Entry>) returns (r: Result<seq<Sweepstake>, Failure>)
    requires Linked(ss) && Separate(ss) && Entries(ss) == linked
    modifies ss`id, ss`name, ss`imageUrl, ss`participants
    ensures Linked(ss)
    ensures forall i :: 0 <= i < |ss| ==> ss[i].tournament == old(ss[i].tournament)
    ensures var problems := SweepstakesProblems(linked);
            (r.Success? <==> problems == [])
            && (r.Success? ==> r.value == ss)
            && (r.Failure? ==> r.error == Aggregate(problems))
  {
    r := ValidateSweepstakes(ss);
  }

  /** The link loop, with what it leaves when every tournament id is known:
      each sweepstake linked, and the entries to validate exactly those
      `LinkedEntries` pairs the sweepstakes with their teams. */
  method LinkAll(ss: seq<Sweepstake>, tids: seq<string>, ts: seq<Tournament?>)
      returns (unknown: Option<nat>, collection: seq<Sweepstake>)
    requires |tids| == |ss| && Separate(ss)
    modifies ss`tournament
    ensures unknown == old(FirstUnknown(tids, ts))
    ensures unknown.None? ==>
              && collection == ss && Linked(ss)
              && (forall i :: 0 <= i < |ss| ==> ss[i].tournament == old(GetByID(ts, tids[i])))
              && Entries(ss) == old(LinkedEntries(ss, tids, ts))
    ensures unknown.Some? ==>
              forall i :: 0 <= i < |ss| ==>
                ss[i].tournament == if i < unknown.value then old(GetByID(ts, tids[i])) else old(ss[i].tournament)
  {
    ghost var linked := if AllKnown(tids, ts) then LinkedEntries(ss, tids, ts) else [];
    unknown, collection := LinkTournaments(ss, tids, ts);
    if unknown.None? {
      assert Linked(ss);
      assert forall i :: 0 <= i < |ss| ==> EntryOf(ss[i]) == linked[i];
      assert Entries(ss) == linked;
    }
  }

  /** The text of the abort: the index, the id, then "not found". */
  lemma UnknownTournamentMessage(idx: nat, tid: string)
    ensures Message(UnknownTournament(idx, tid))
            == "sweepstake index " + NatToString(idx) + ": tournament id '" + tid + "': not found"
  {
  }
}
