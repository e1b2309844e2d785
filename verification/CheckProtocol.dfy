/** Create, update, pause, delete, and the three separate steps of a check (read, run, activate), interleaved. */
module CheckProtocol {
  import opened Wrappers
  import opened Json
  import opened FunctionTable

  /** A check in flight holds the record it read. */
  datatype Check = Check(orgId: string, record: Record)

  /** `stored` remembers every revision a row ever had, `creators` the organisation that created it. */
  datatype System = System(
    rows: Table,
    reading: set<Check>,
    passed: set<Check>,
    stored: set<(FunctionId, Code)>,
    creators: map<FunctionId, string>)

  datatype Event =
    | Create(orgId: string, id: FunctionId, physicalSlug: string, clean: Clean)
    | Update(orgId: string, id: FunctionId, clean: Clean)
    | Delete(orgId: string, id: FunctionId)
    | Pause(orgId: string, id: FunctionId)
    | BeginCheck(orgId: string, id: FunctionId)
    | CheckReturns(check: Check, output: Result<string>)
    | Activate(check: Check)

  function Init(): System {
    System(map[], {}, {}, {}, map[])
  }

  predicate Cleaned(clean: Clean) {
    ORG_META_KEY !in clean.metaData && LOGICAL_SLUG_META_KEY !in clean.metaData
  }

  function Step(s: System, ev: Event): System {
    match ev
    case Create(orgId, id, physicalSlug, clean) =>
      if id in s.rows || !Cleaned(clean) then s
      else s.(rows := Created(s.rows, orgId, id, physicalSlug, clean), stored := s.stored + {(id, clean.code)},
              creators := s.creators[id := orgId])
    case Update(orgId, id, clean) =>
      if !Cleaned(clean) then s
      else s.(rows := Updated(s.rows, orgId, id, clean),
              stored := if Visible(s.rows, orgId, id) then s.stored + {(id, clean.code)} else s.stored)
    case Delete(orgId, id) => s.(rows := Deleted(s.rows, orgId, id))
    case Pause(orgId, id) => s.(rows := PausedTable(s.rows, orgId, id))
    case BeginCheck(orgId, id) =>
      if Visible(s.rows, orgId, id) then s.(reading := s.reading + {Check(orgId, ReadRow(id, s.rows[id]))}) else s
    case CheckReturns(check, output) =>
      if check in s.reading && Passes(output) then s.(passed := s.passed + {check}) else s
    case Activate(check) =>
      if check in s.passed then s.(rows := Activated(s.rows, check.orgId, check.record)) else s
  }

  function Play(s: System, evs: seq<Event>): System {
    if evs == [] then s else Step(Play(s, evs[..|evs| - 1]), evs[|evs| - 1])
  }

  function Exec(evs: seq<Event>): System {
    Play(Init(), evs)
  }

  ghost predicate PassedCode(s: System, id: FunctionId, code: Code) {
    exists check :: check in s.passed && check.record.id == id && check.record.code == code
  }

  predicate RowOk(s: System, id: FunctionId, row: Row) {
    && id in s.creators
    && Obj(row.metaData).GetStr(ORG_META_KEY) == Some(s.creators[id])
    && Obj(row.metaData).GetStr(LOGICAL_SLUG_META_KEY).Some?
    && (id, row.code) in s.stored
    && (row.softDeleted ==> row.status == Archived)
  }

  ghost predicate Inv(s: System) {
    && (forall id :: id in s.rows ==> RowOk(s, id, s.rows[id]))
    && (forall id :: id in s.rows && s.rows[id].status.Active? ==> PassedCode(s, id, s.rows[id].code))
    && (forall check :: check in s.reading || check in s.passed ==> (check.record.id, check.record.code) in s.stored)
    && s.creators.Keys <= s.rows.Keys
  }

  /** Nothing is forgotten: rows stay, deleted rows stay deleted, creators and passed checks stay. */
  predicate Grows(s: System, t: System) {
    && (forall id :: id in s.rows ==> id in t.rows && (s.rows[id].softDeleted ==> t.rows[id] == s.rows[id]))
    && (forall id :: id in s.creators ==> id in t.creators && t.creators[id] == s.creators[id])
    && s.passed <= t.passed && s.stored <= t.stored
  }

  lemma ScopedKeepsScope(metaData: map<string, Json>, orgId: string, slug: string)
    ensures Obj(Scoped(metaData, orgId, slug)).GetStr(ORG_META_KEY) == Some(orgId)
    ensures Obj(Scoped(metaData, orgId, slug)).GetStr(LOGICAL_SLUG_META_KEY) == Some(slug)
  {
    KeysDiffer();
  }


  lemma RowMoves(s: System, id: FunctionId, row: Row, stored: set<(FunctionId, Code)>)
    requires Inv(s) && id in s.rows && !s.rows[id].softDeleted && s.stored <= stored
    requires RowOk(s.(stored := stored), id, row)
    requires row.status.Active? ==> PassedCode(s, id, row.code)
    ensures var t := s.(rows := s.rows[id := row], stored := stored); Inv(t) && Grows(s, t)
  {
    var t := s.(rows := s.rows[id := row], stored := stored);
    forall i | i in t.rows ensures RowOk(t, i, t.rows[i]) {
      if i != id { assert RowOk(s, i, s.rows[i]); }
    }
    forall i | i in t.rows && t.rows[i].status.Active? ensures PassedCode(t, i, t.rows[i].code) {
      assert PassedCode(s, i, t.rows[i].code);
    }
  }

  function Added(s: System, id: FunctionId, row: Row, orgId: string): System {
    s.(rows := s.rows[id := row], stored := s.stored + {(id, row.code)}, creators := s.creators[id := orgId])
  }

  lemma RowStaysOk(s: System, t: System, id: FunctionId, row: Row)
    requires RowOk(s, id, row) && id in t.creators && t.creators[id] == s.creators[id] && s.stored <= t.stored
    ensures RowOk(t, id, row)
  {
    hide ORG_META_KEY, LOGICAL_SLUG_META_KEY;
  }

  lemma RowHasCreator(s: System, id: FunctionId, row: Row)
    requires RowOk(s, id, row)
    ensures id in s.creators
  {
  }

  lemma RowIsAdded(s: System, id: FunctionId, row: Row, orgId: string)
    requires Inv(s) && id !in s.rows && row.status.Draft?
    requires RowOk(Added(s, id, row, orgId), id, row)
    ensures Inv(Added(s, id, row, orgId)) && Grows(s, Added(s, id, row, orgId))
  {
    hide RowOk, PassedCode;
    var t := Added(s, id, row, orgId);
    forall i | i in t.rows ensures RowOk(t, i, t.rows[i]) {
      if i != id {
        RowHasCreator(s, i, s.rows[i]);
        RowStaysOk(s, t, i, s.rows[i]);
      }
    }
    forall i | i in t.rows && t.rows[i].status.Active? ensures PassedCode(t, i, t.rows[i].code) {
      SamePassed(s, t, i, t.rows[i].code);
    }
  }

  lemma SamePassed(s: System, t: System, id: FunctionId, code: Code)
    requires PassedCode(s, id, code) && t.passed == s.passed
    ensures PassedCode(t, id, code)
  {
  }

  lemma CreateStep(s: System, ev: Event)
    requires Inv(s) && ev.Create?
    ensures Inv(Step(s, ev)) && Grows(s, Step(s, ev))
  {
    hide ORG_META_KEY, LOGICAL_SLUG_META_KEY, Scoped, Inv;
    ScopedKeepsScope(ev.clean.metaData, ev.orgId, ev.clean.logicalSlug);
    if ev.id !in s.rows && Cleaned(ev.clean) {
      RowIsAdded(s, ev.id, Created(s.rows, ev.orgId, ev.id, ev.physicalSlug, ev.clean)[ev.id], ev.orgId);
    }
  }

  lemma GrowingChecks(s: System, reading: set<Check>, passed: set<Check>)
    requires Inv(s) && s.passed <= passed
    requires forall check :: check in reading || check in passed ==> (check.record.id, check.record.code) in s.stored
    ensures var t := s.(reading := reading, passed := passed); Inv(t) && Grows(s, t)
  {
    var t := s.(reading := reading, passed := passed);
    forall i | i in t.rows ensures RowOk(t, i, t.rows[i]) { assert RowOk(s, i, s.rows[i]); }
    forall i | i in t.rows && t.rows[i].status.Active? ensures PassedCode(t, i, t.rows[i].code) {
      assert PassedCode(s, i, t.rows[i].code);
    }
  }

  lemma UpdateStep(s: System, orgId: string, id: FunctionId, clean: Clean)
    requires Inv(s) && Visible(s.rows, orgId, id) && Cleaned(clean)
    ensures Inv(Step(s, Update(orgId, id, clean))) && Grows(s, Step(s, Update(orgId, id, clean)))
  {
    hide ORG_META_KEY, LOGICAL_SLUG_META_KEY, Scoped, Passes;
    ScopedKeepsScope(clean.metaData, orgId, clean.logicalSlug);
    assert RowOk(s, id, s.rows[id]);
    RowMoves(s, id, Updated(s.rows, orgId, id, clean)[id], s.stored + {(id, clean.code)});
  }

  lemma StepKeepsInv(s: System, ev: Event)
    requires Inv(s)
    ensures Inv(Step(s, ev)) && Grows(s, Step(s, ev))
  {
    hide ORG_META_KEY, LOGICAL_SLUG_META_KEY, Scoped, Passes;
    match ev
    case Create(_, _, _, _) => CreateStep(s, ev);
    case Update(orgId, id, clean) =>
      if Visible(s.rows, orgId, id) && Cleaned(clean) { UpdateStep(s, orgId, id, clean); }
    case Delete(orgId, id) =>
      if Visible(s.rows, orgId, id) {
        assert RowOk(s, id, s.rows[id]);
        RowMoves(s, id, Deleted(s.rows, orgId, id)[id], s.stored);
      }
    case Pause(orgId, id) =>
      if Visible(s.rows, orgId, id) {
        assert RowOk(s, id, s.rows[id]);
        RowMoves(s, id, PausedTable(s.rows, orgId, id)[id], s.stored);
      }
    case BeginCheck(orgId, id) =>
      if Visible(s.rows, orgId, id) {
        assert RowOk(s, id, s.rows[id]);
        GrowingChecks(s, s.reading + {Check(orgId, ReadRow(id, s.rows[id]))}, s.passed);
      }
    case CheckReturns(check, output) =>
      if check in s.reading && Passes(output) {
        GrowingChecks(s, s.reading, s.passed + {check});
      }
    case Activate(check) =>
      var id := check.record.id;
      if check in s.passed && CanActivate(s.rows, check.orgId, check.record) {
        ScopedKeepsScope(check.record.metaData, check.orgId, check.record.slug);
        assert RowOk(s, id, s.rows[id]);
        assert PassedCode(s, id, s.rows[id].code);
        RowMoves(s, id, Activated(s.rows, check.orgId, check.record)[id], s.stored);
      }
  }

  lemma {:induction false} PlayKeepsInv(s: System, evs: seq<Event>)
    requires Inv(s)
    ensures Inv(Play(s, evs)) && Grows(s, Play(s, evs))
  {
    hide Inv, Step;
    if evs != [] {
      PlayKeepsInv(s, evs[..|evs| - 1]);
      StepKeepsInv(Play(s, evs[..|evs| - 1]), evs[|evs| - 1]);
    }
  }

  // ---- what activation guarantees ----

  /** A reply that says anywhere that the check is not ok, and no reply at all, leave everything as it is. */
  lemma FailedCheckChangesNothing(s: System, check: Check, before: string, after: string, error: string)
    ensures Step(s, CheckReturns(check, Ok(before + "\"ok\":false" + after))) == s
    ensures Step(s, CheckReturns(check, Result.Err(error))) == s
  {
    var text := before + "\"ok\":false" + after;
    assert text[|before|..] == "\"ok\":false" + after;
  }

  /** The reply says nowhere that the check is not ok. */
  ghost predicate SaysNowhere(text: string) {
    forall k :: 0 <= k <= |text| ==> !("\"ok\":false" <= text[k..])
  }

  /** Any other reply passes a check in flight. */
  lemma OtherReplyPasses(s: System, check: Check, text: string)
    requires check in s.reading && SaysNowhere(text)
    ensures Step(s, CheckReturns(check, Ok(text))) == s.(passed := s.passed + {check})
  {
  }

  lemma PassingSaysNowhere(output: Result<string>)
    ensures Passes(output) <==> output.Ok? && SaysNowhere(output.value)
  {
  }

  /** The check was begun when its row had this code. */
  ghost predicate BegunAt(evs: seq<Event>, j: nat, check: Check) {
    && j < |evs| && evs[j] == BeginCheck(check.orgId, check.record.id)
    && var rows := Exec(evs[..j]).rows;
       check.record.id in rows && rows[check.record.id].code == check.record.code
  }

  /** The runner answered the check, and did not say that it is not ok. */
  ghost predicate PassedAt(evs: seq<Event>, k: nat, check: Check) {
    k < |evs| && evs[k].CheckReturns? && evs[k].check == check && evs[k].output.Ok? && SaysNowhere(evs[k].output.value)
  }

  lemma {:induction false} ReadingWasBegun(evs: seq<Event>, check: Check) returns (j: nat)
    requires check in Exec(evs).reading
    ensures BegunAt(evs, j, check)
  {
    hide ReadRow, Visible, Passes, Activated, Created, Updated, Deleted, PausedTable;
    var init, last := evs[..|evs| - 1], evs[|evs| - 1];
    if check in Exec(init).reading {
      j := ReadingWasBegun(init, check);
      assert evs[..j] == init[..j];
    } else {
      ReadRowShowsRow(last.id, Exec(init).rows[last.id]) by { VisibleIsStored(Exec(init).rows, last.orgId, last.id); }
      VisibleIsStored(Exec(init).rows, last.orgId, last.id);
      j := |evs| - 1;
    }
  }

  lemma VisibleIsStored(rows: Table, orgId: string, id: FunctionId)
    requires Visible(rows, orgId, id)
    ensures id in rows
  {
  }

  /** Every check that counts was begun, on the code it counts for, and was then answered without an objection. */
  lemma {:induction false} PassedChecksWereAnswered(evs: seq<Event>, check: Check) returns (j: nat, k: nat)
    requires check in Exec(evs).passed
    ensures j < k && BegunAt(evs, j, check) && PassedAt(evs, k, check)
  {
    hide ReadRow, Visible, Passes, SaysNowhere, BegunAt, Activated, Created, Updated, Deleted, PausedTable;
    var init, last := evs[..|evs| - 1], evs[|evs| - 1];
    if check in Exec(init).passed {
      j, k := PassedChecksWereAnswered(init, check);
      assert evs == init + [last];
      BegunEarlier(init, last, j, check);
    } else {
      j := ReadingWasBegun(init, check);
      k := |evs| - 1;
      assert evs == init + [last];
      BegunEarlier(init, last, j, check);
      PassingSaysNowhere(last.output);
    }
  }

  lemma BegunEarlier(init: seq<Event>, last: Event, j: nat, check: Check)
    requires BegunAt(init, j, check)
    ensures j < |init| && BegunAt(init + [last], j, check)
  {
    assert (init + [last])[..j] == init[..j];
  }

  /**
   * An active function's code is that of a stored revision, which a check has read and which was then answered
   * without an objection; so code whose every check failed is never active.
   */
  lemma ActiveCodeWasChecked(evs: seq<Event>, id: FunctionId)
    requires id in Exec(evs).rows && Exec(evs).rows[id].status.Active?
    ensures exists check: Check, j: nat, k: nat ::
              && check.record.id == id && check.record.code == Exec(evs).rows[id].code
              && j < k && BegunAt(evs, j, check) && PassedAt(evs, k, check)
    ensures (id, Exec(evs).rows[id].code) in Exec(evs).stored && !Exec(evs).rows[id].softDeleted
  {
    hide Play, BegunAt, PassedAt;
    PlayKeepsInv(Init(), evs);
    assert RowOk(Exec(evs), id, Exec(evs).rows[id]);
    assert PassedCode(Exec(evs), id, Exec(evs).rows[id].code);
    var check :| check in Exec(evs).passed && check.record.id == id && check.record.code == Exec(evs).rows[id].code;
    var j, k := PassedChecksWereAnswered(evs, check);
  }

  /** A row's organisation is its creator's for ever, and only that organisation can see or change it. */
  lemma OrganisationNeverChanges(evs: seq<Event>, more: seq<Event>, id: FunctionId, orgId: string)
    requires id in Exec(evs).rows
    ensures id in Exec(evs).creators && id in Play(Exec(evs), more).rows
    ensures Obj(Play(Exec(evs), more).rows[id].metaData).GetStr(ORG_META_KEY) == Some(Exec(evs).creators[id])
    ensures Visible(Play(Exec(evs), more).rows, orgId, id) <==>
            orgId == Exec(evs).creators[id] && !Play(Exec(evs), more).rows[id].softDeleted
  {
    hide Play, ORG_META_KEY, LOGICAL_SLUG_META_KEY;
    PlayKeepsInv(Init(), evs);
    PlayKeepsInv(Exec(evs), more);
    assert RowOk(Exec(evs), id, Exec(evs).rows[id]);
    assert RowOk(Play(Exec(evs), more), id, Play(Exec(evs), more).rows[id]);
  }

  /** A deleted row stays exactly as it was: archived, and never active again. */
  lemma DeletedForEver(evs: seq<Event>, more: seq<Event>, id: FunctionId)
    requires id in Exec(evs).rows && Exec(evs).rows[id].softDeleted
    ensures id in Play(Exec(evs), more).rows && Play(Exec(evs), more).rows[id] == Exec(evs).rows[id]
    ensures Exec(evs).rows[id].status == Archived
  {
    hide Play;
    PlayKeepsInv(Init(), evs);
    PlayKeepsInv(Exec(evs), more);
    assert RowOk(Exec(evs), id, Exec(evs).rows[id]);
  }

  /** Only the creator's organisation can delete a live row; that archives it for good, and keeps the rest of it. */
  lemma DeletionIsFinal(evs: seq<Event>, more: seq<Event>, orgId: string, id: FunctionId)
    requires id in Exec(evs).rows && !Exec(evs).rows[id].softDeleted
    ensures id in Exec(evs).creators
    ensures Exec(evs).creators[id] != orgId ==> Exec(evs + [Delete(orgId, id)]) == Exec(evs)
    ensures var after := Play(Exec(evs + [Delete(orgId, id)]), more).rows;
            Exec(evs).creators[id] == orgId ==>
              id in after && after[id] == Exec(evs).rows[id].(softDeleted := true, status := Archived)
  {
    PlayKeepsInv(Init(), evs);
    assert RowOk(Exec(evs), id, Exec(evs).rows[id]);
    assert Exec(evs + [Delete(orgId, id)]) == Step(Exec(evs), Delete(orgId, id)) by {
      assert (evs + [Delete(orgId, id)])[..|evs|] == evs;
    }
    if Exec(evs).creators[id] == orgId { DeletedForEver(evs + [Delete(orgId, id)], more, id); }
  }

  // ---- what activation overrides ----

  /** The check that reads row `id` now. */
  function Reading(s: System, orgId: string, id: FunctionId): Check
    requires id in s.rows
  {
    Check(orgId, ReadRow(id, s.rows[id]))
  }

  /** Activation does nothing exactly when the check did not pass, or the row was deleted or has other code now. */
  predicate Refused(s: System, check: Check) {
    var id := check.record.id;
    check !in s.passed || (id in s.rows && (s.rows[id].softDeleted || s.rows[id].code != check.record.code))
  }

  lemma ActivationIsRefused(evs: seq<Event>, more: seq<Event>, orgId: string, id: FunctionId)
    requires Visible(Exec(evs).rows, orgId, id)
    ensures id in Play(Exec(evs), more).rows
    ensures var check, t := Reading(Exec(evs), orgId, id), Play(Exec(evs), more);
            && (Refused(t, check) ==> Step(t, Activate(check)) == t)
            && (!Refused(t, check) ==> CanActivate(t.rows, orgId, check.record) && check in t.passed)
  {
    hide Play, ORG_META_KEY, LOGICAL_SLUG_META_KEY, ReadRow;
    PlayKeepsInv(Init(), evs);
    assert RowOk(Exec(evs), id, Exec(evs).rows[id]);
    OrganisationNeverChanges(evs, more, id, orgId);
    ReadRowShowsRow(id, Exec(evs).rows[id]);
  }

  /**
   * A pause survives the activation of a check begun before it if and only if that check has not passed or the
   * code was changed since the check read it. Being paused as such does not stop the activation.
   */
  lemma PauseSurvivesActivation(evs: seq<Event>, more: seq<Event>, orgId: string, id: FunctionId)
    requires Visible(Exec(evs).rows, orgId, id)
    requires id in Play(Exec(evs), more).rows && Play(Exec(evs), more).rows[id].status.Paused?
    ensures var check, t := Reading(Exec(evs), orgId, id), Play(Exec(evs), more);
            var after := Step(t, Activate(check)).rows;
            && id in after
            && (after[id].status.Paused? <==> check !in t.passed || t.rows[id].code != Exec(evs).rows[id].code)
            && (!after[id].status.Paused? ==> after[id].status.Active?)
  {
    var check, t := Reading(Exec(evs), orgId, id), Play(Exec(evs), more);
    hide Play, ORG_META_KEY, LOGICAL_SLUG_META_KEY, ReadRow, Scoped, Visible;
    ActivationIsRefused(evs, more, orgId, id);
    ReadRowShowsRow(id, Exec(evs).rows[id]);
    PausedRowIsLive(evs, more, id);
  }

  lemma PausedRowIsLive(evs: seq<Event>, more: seq<Event>, id: FunctionId)
    requires id in Play(Exec(evs), more).rows && Play(Exec(evs), more).rows[id].status.Paused?
    ensures !Play(Exec(evs), more).rows[id].softDeleted
  {
    hide Play;
    PlayKeepsInv(Init(), evs);
    PlayKeepsInv(Exec(evs), more);
    assert RowOk(Play(Exec(evs), more), id, Play(Exec(evs), more).rows[id]);
  }

  /** The customer's slug and metadata that one event stores in row `id`, if it stores any. */
  datatype Written = Written(slug: string, metaData: map<string, Json>)

  function Writes(s: System, ev: Event, id: FunctionId): Option<Written> {
    match ev
    case Update(orgId, i, clean) =>
      if i == id && Cleaned(clean) && Visible(s.rows, orgId, id) then Some(Written(clean.logicalSlug, clean.metaData))
      else None
    case Activate(check) =>
      if check.record.id == id && check in s.passed && CanActivate(s.rows, check.orgId, check.record) then
        Some(Written(check.record.slug, check.record.metaData))
      else None
    case _ => None
  }

  /** What was stored last since `s`. */
  function LastWritten(s: System, more: seq<Event>, id: FunctionId): Option<Written> {
    if more == [] then None
    else
      var init, last := more[..|more| - 1], more[|more| - 1];
      var written := Writes(Play(s, init), last, id);
      if written.Some? then written else LastWritten(s, init, id)
  }

  /** Reserved keys never reach a written map: updates are cleaned, and readers are not shown them. */
  ghost predicate ShowsNoReserved(metaData: map<string, Json>) {
    ORG_META_KEY !in metaData && LOGICAL_SLUG_META_KEY !in metaData
  }

  ghost predicate ChecksShowNoReserved(s: System) {
    forall check :: check in s.reading || check in s.passed ==> ShowsNoReserved(check.record.metaData)
  }

  lemma {:induction false} ChecksAreClean(s: System, more: seq<Event>)
    requires ChecksShowNoReserved(s)
    ensures ChecksShowNoReserved(Play(s, more))
  {
    hide ORG_META_KEY, LOGICAL_SLUG_META_KEY, Passes;
    if more != [] { ChecksAreClean(s, more[..|more| - 1]); }
  }

  /** Two clean contents stored in one organisation are the same row metadata only if they are the same. */
  lemma ScopedIsInjective(a: Written, b: Written, orgId: string)
    requires ShowsNoReserved(a.metaData) && ShowsNoReserved(b.metaData)
    ensures Scoped(a.metaData, orgId, a.slug) == Scoped(b.metaData, orgId, b.slug) <==> a == b
  {
    hide ORG_META_KEY, LOGICAL_SLUG_META_KEY;
    KeysDiffer();
    var x, y := Scoped(a.metaData, orgId, a.slug), Scoped(b.metaData, orgId, b.slug);
    if x == y {
      assert x[LOGICAL_SLUG_META_KEY] == Str(a.slug) && y[LOGICAL_SLUG_META_KEY] == Str(b.slug);
      assert a.metaData == x - {ORG_META_KEY, LOGICAL_SLUG_META_KEY};
      assert b.metaData == y - {ORG_META_KEY, LOGICAL_SLUG_META_KEY};
    }
  }

  /** What row `id` of this organisation has after `ev`. */
  ghost predicate Stores(s: System, ev: Event, id: FunctionId, orgId: string) {
    var t, written := Step(s, ev), Writes(s, ev, id);
    && id in s.rows && id in t.rows
    && (written.None? ==> t.rows[id].metaData == s.rows[id].metaData)
    && (written.Some? ==> t.rows[id].metaData == Scoped(written.value.metaData, orgId, written.value.slug))
    && (written.Some? ==> ShowsNoReserved(written.value.metaData))
  }

  predicate BelongsTo(s: System, id: FunctionId, orgId: string) {
    id in s.rows && Obj(s.rows[id].metaData).GetStr(ORG_META_KEY) == Some(orgId)
  }

  lemma UpdateStores(s: System, ev: Event, id: FunctionId, orgId: string)
    requires BelongsTo(s, id, orgId) && ev.Update?
    ensures Stores(s, ev, id, orgId)
  {
    hide ORG_META_KEY, LOGICAL_SLUG_META_KEY, Scoped;
  }

  lemma ActivateStores(s: System, ev: Event, id: FunctionId, orgId: string)
    requires BelongsTo(s, id, orgId) && ev.Activate? && ChecksShowNoReserved(s)
    ensures Stores(s, ev, id, orgId)
  {
    hide ORG_META_KEY, LOGICAL_SLUG_META_KEY, Scoped;
  }

  lemma StepStoresWhatItWrites(s: System, ev: Event, id: FunctionId, orgId: string)
    requires BelongsTo(s, id, orgId) && ChecksShowNoReserved(s)
    ensures Stores(s, ev, id, orgId)
  {
    hide ORG_META_KEY, LOGICAL_SLUG_META_KEY, Scoped, ReadRow, Passes, BelongsTo;
    assert id in s.rows by { OwnedIsStored(s, id, orgId); }
    match ev
    case Update(_, _, _) => UpdateStores(s, ev, id, orgId);
    case Activate(_) => ActivateStores(s, ev, id, orgId);
    case Create(_, _, _, _) =>
    case Delete(_, _) =>
    case Pause(_, _) =>
    case BeginCheck(_, _) =>
    case CheckReturns(_, _) =>
  }

  lemma OwnedIsStored(s: System, id: FunctionId, orgId: string)
    requires BelongsTo(s, id, orgId)
    ensures id in s.rows
  {
  }

  lemma CreatorOwns(s: System, id: FunctionId)
    requires Inv(s) && id in s.rows
    ensures id in s.creators && BelongsTo(s, id, s.creators[id])
  {
    hide ORG_META_KEY, LOGICAL_SLUG_META_KEY;
    assert RowOk(s, id, s.rows[id]);
  }

  /** A row's metadata is what was last stored in it, by an update or by an activation. */
  lemma {:induction false} MetadataIsLastWritten(s: System, more: seq<Event>, id: FunctionId, orgId: string)
    requires Inv(s) && id in s.rows && id in s.creators && s.creators[id] == orgId && ChecksShowNoReserved(s)
    ensures id in Play(s, more).rows
    ensures Play(s, more).rows[id].metaData ==
      match LastWritten(s, more, id) {
        case None => s.rows[id].metaData
        case Some(w) => Scoped(w.metaData, orgId, w.slug)
      }
    ensures LastWritten(s, more, id).Some? ==> ShowsNoReserved(LastWritten(s, more, id).value.metaData)
  {
    CreatorOwns(s, id);
    hide Inv, Step, Writes, Scoped, ChecksShowNoReserved, ShowsNoReserved, BelongsTo;
    if more != [] {
      var init := more[..|more| - 1];
      MetadataIsLastWritten(s, init, id, orgId);
      PlayKeepsInv(s, init);
      CreatorsStay(s, init, id);
      CreatorOwns(Play(s, init), id);
      ChecksAreClean(s, init);
      StepStoresWhatItWrites(Play(s, init), more[|more| - 1], id, orgId);
    }
  }

  lemma CreatorsStay(s: System, more: seq<Event>, id: FunctionId)
    requires Inv(s) && id in s.rows
    ensures id in s.creators && id in Play(s, more).rows && id in Play(s, more).creators
    ensures Play(s, more).creators[id] == s.creators[id]
  {
    PlayKeepsInv(s, more);
    hide Play;
    assert RowOk(s, id, s.rows[id]);
  }

  /**
   * Activation stores the slug and metadata that its check had read. The row's metadata survives it if and only if
   * the activation is refused, or nothing was stored since the check read the row, or what was stored last is
   * just what the check had read; otherwise what was stored last is lost.
   */
  lemma MetadataSurvivesActivation(evs: seq<Event>, more: seq<Event>, orgId: string, id: FunctionId)
    requires Visible(Exec(evs).rows, orgId, id)
    ensures id in Play(Exec(evs), more).rows
    ensures var s, t := Exec(evs), Play(Exec(evs), more);
            var check, last := Reading(s, orgId, id), LastWritten(s, more, id);
            var after := Step(t, Activate(check)).rows;
            && id in after
            && (after[id].metaData == t.rows[id].metaData <==>
                  Refused(t, check) || last.None? || last.value == Written(check.record.slug, check.record.metaData))
            && (!Refused(t, check) ==> after[id].metaData == s.rows[id].metaData)
  {
    hide Play, ORG_META_KEY, LOGICAL_SLUG_META_KEY, ReadRow, Scoped, Inv;
    var s, t := Exec(evs), Play(Exec(evs), more);
    var check := Reading(s, orgId, id);
    PlayKeepsInv(Init(), evs) by { assert Inv(Init()) by { InitIsOk(); } }
    ReadersSeeOwnRow(s, orgId, id);
    ChecksAreClean(Init(), evs);
    ActivationIsRefused(evs, more, orgId, id);
    MetadataIsLastWritten(s, more, id, orgId);
    if LastWritten(s, more, id).Some? {
      ScopedIsInjective(LastWritten(s, more, id).value, Written(check.record.slug, check.record.metaData), orgId);
    }
  }

  lemma InitIsOk()
    ensures Inv(Init())
  {
  }

  lemma ReadersSeeOwnRow(s: System, orgId: string, id: FunctionId)
    requires Inv(s) && Visible(s.rows, orgId, id)
    ensures id in s.creators && s.creators[id] == orgId
    ensures ShowsNoReserved(ReadRow(id, s.rows[id]).metaData) && ReadRow(id, s.rows[id]).id == id
    ensures Scoped(ReadRow(id, s.rows[id]).metaData, orgId, ReadRow(id, s.rows[id]).slug) == s.rows[id].metaData
  {
    hide ORG_META_KEY, LOGICAL_SLUG_META_KEY, ReadRow, Scoped;
    assert RowOk(s, id, s.rows[id]);
    ReadRowShowsRow(id, s.rows[id]);
    ReadThenScope(id, s.rows[id], orgId);
  }

  // ---- two histories in which something is lost ----

  /** A function is created, a check of it begins and passes. */
  function CheckedHistory(orgId: string, id: FunctionId, physicalSlug: string, clean: Clean): seq<Event> {
    var row := Created(map[], orgId, id, physicalSlug, clean)[id];
    var check := Check(orgId, ReadRow(id, row));
    [Create(orgId, id, physicalSlug, clean), BeginCheck(orgId, id), CheckReturns(check, Ok("{}"))]
  }

  lemma EmptyReplyPasses()
    ensures Passes(Ok("{}"))
  {
    var pattern := "\"ok\":false";
    assert |pattern| == 10;
    forall k | 0 <= k <= |"{}"| ensures !(pattern <= "{}"[k..]) {
      assert |"{}"[k..]| <= 2;
    }
  }

  lemma CheckedHistoryRuns(orgId: string, id: FunctionId, physicalSlug: string, clean: Clean)
    requires Cleaned(clean)
    ensures var s := Exec(CheckedHistory(orgId, id, physicalSlug, clean));
            && s.rows == Created(map[], orgId, id, physicalSlug, clean)
            && Visible(s.rows, orgId, id) && Reading(s, orgId, id) in s.passed
  {
    hide ORG_META_KEY, LOGICAL_SLUG_META_KEY, Scoped, ReadRow, Passes;
    EmptyReplyPasses();
    ScopedKeepsScope(clean.metaData, orgId, clean.logicalSlug);
    var evs := CheckedHistory(orgId, id, physicalSlug, clean);
    assert evs[..2][..1] == [evs[0]] && evs[..1][..0] == [];
    assert Play(Init(), evs[..1]) == Step(Init(), evs[0]);
    assert Play(Init(), evs[..2]) == Step(Step(Init(), evs[0]), evs[1]);
  }

  /** Create, check, pause, activate: the pause is overridden, whatever the definition. */
  lemma PauseIsOverridden(orgId: string, id: FunctionId, physicalSlug: string, clean: Clean)
    requires Cleaned(clean)
    ensures var evs := CheckedHistory(orgId, id, physicalSlug, clean);
            var s, t := Exec(evs), Play(Exec(evs), [Pause(orgId, id)]);
            && Visible(s.rows, orgId, id) && id in t.rows && t.rows[id].status.Paused?
            && Step(t, Activate(Reading(s, orgId, id))).rows[id].status.Active?
  {
    var evs := CheckedHistory(orgId, id, physicalSlug, clean);
    hide ORG_META_KEY, LOGICAL_SLUG_META_KEY, Scoped, ReadRow, CheckedHistory, Exec;
    CheckedHistoryRuns(orgId, id, physicalSlug, clean);
    var s := Exec(evs);
    assert [Pause(orgId, id)][..0] == [];
    assert Play(s, [Pause(orgId, id)]) == Step(s, Pause(orgId, id));
    PauseSurvivesActivation(evs, [Pause(orgId, id)], orgId, id);
    ReadRowShowsRow(id, s.rows[id]);
  }

  /** Create, check, update the metadata but not the code, activate: the update's metadata is lost. */
  lemma UpdateIsLost(orgId: string, id: FunctionId, physicalSlug: string, clean: Clean, newer: Clean)
    requires Cleaned(clean) && Cleaned(newer) && newer.code == clean.code
    requires (newer.logicalSlug, newer.metaData) != (clean.logicalSlug, clean.metaData)
    ensures var evs := CheckedHistory(orgId, id, physicalSlug, clean);
            var s, t := Exec(evs), Play(Exec(evs), [Update(orgId, id, newer)]);
            && Visible(s.rows, orgId, id) && id in t.rows
            && t.rows[id].metaData == Scoped(newer.metaData, orgId, newer.logicalSlug)
            && Step(t, Activate(Reading(s, orgId, id))).rows[id].metaData
               == Scoped(clean.metaData, orgId, clean.logicalSlug) != t.rows[id].metaData
  {
    var evs := CheckedHistory(orgId, id, physicalSlug, clean);
    hide ORG_META_KEY, LOGICAL_SLUG_META_KEY, Scoped, ReadRow, CheckedHistory, Exec;
    CheckedHistoryRuns(orgId, id, physicalSlug, clean);
    var s := Exec(evs);
    var more := [Update(orgId, id, newer)];
    assert more[..0] == [];
    assert Play(s, more) == Step(s, more[0]);
    ScopedIsInjective(Written(clean.logicalSlug, clean.metaData), Written(newer.logicalSlug, newer.metaData), orgId);
    MetadataSurvivesActivation(evs, more, orgId, id);
    ReadRowShowsRow(id, s.rows[id]);
  }
}
