/** The function-definition table: each operation is one guarded row update. */
module FunctionTable {
  import opened Wrappers
  import opened Json

  type FunctionId = nat

  const ORG_META_KEY := "fiduciaOrgId"
  const LOGICAL_SLUG_META_KEY := "fiduciaCustomerSlug"

  datatype Status = Draft | Active | Paused | Archived

  /** The part of a definition that a check runs and an activation compares. */
  datatype Code = Code(functionBody: string, runtime: string, containerized: bool, maxRunMs: nat)

  /** The rest of the customer's definition. */
  datatype Profile = Profile(
    displayName: string,
    description: string,
    entryCommand: string,
    reuseKey: Option<string>,
    idleTimeoutSeconds: nat,
    labels: seq<string>)

  /** A cleaned definition: reserved metadata keys have been refused. */
  datatype Clean = Clean(logicalSlug: string, code: Code, profile: Profile, metaData: map<string, Json>)

  datatype Row = Row(
    physicalSlug: string,
    code: Code,
    profile: Profile,
    metaData: map<string, Json>,
    status: Status,
    softDeleted: bool)

  /** What a reader gets: the customer's slug, and metadata without the reserved keys. */
  datatype Record = Record(
    id: FunctionId,
    slug: string,
    code: Code,
    profile: Profile,
    metaData: map<string, Json>,
    status: Status)

  type Table = map<FunctionId, Row>

  datatype Outcome<T> = Done(value: T) | NotFound | Conflict

  function Scoped(metaData: map<string, Json>, orgId: string, slug: string): map<string, Json> {
    metaData[ORG_META_KEY := Str(orgId)][LOGICAL_SLUG_META_KEY := Str(slug)]
  }

  /** Only live rows of the caller's own organisation can be seen or changed. */
  predicate Visible(rows: Table, orgId: string, id: FunctionId) {
    id in rows && !rows[id].softDeleted && Obj(rows[id].metaData).GetStr(ORG_META_KEY) == Some(orgId)
  }

  function ReadRow(id: FunctionId, row: Row): Record {
    Record(id, Obj(row.metaData).GetStr(LOGICAL_SLUG_META_KEY).GetOr(row.physicalSlug), row.code, row.profile,
           row.metaData - {ORG_META_KEY, LOGICAL_SLUG_META_KEY}, row.status)
  }

  /** Everything of the row but its organisation; the slug the customer chose, if the row still has it. */
  ghost predicate ShowsRow(record: Record, id: FunctionId, row: Row) {
    && record.id == id && record.code == row.code && record.profile == row.profile && record.status == row.status
    && (forall key :: key in record.metaData <==>
          key in row.metaData && key != ORG_META_KEY && key != LOGICAL_SLUG_META_KEY)
    && (forall key :: key in record.metaData ==> record.metaData[key] == row.metaData[key])
    && match Obj(row.metaData).GetStr(LOGICAL_SLUG_META_KEY) {
         case Some(slug) => record.slug == slug
         case None => record.slug == row.physicalSlug
       }
  }

  lemma ReadRowShowsRow(id: FunctionId, row: Row)
    ensures ShowsRow(ReadRow(id, row), id, row)
  {
    hide ORG_META_KEY, LOGICAL_SLUG_META_KEY;
  }

  /** What is stored of a customer's metadata: all of it, with the organisation and the slug in the reserved places. */
  ghost predicate StoresMeta(stored: map<string, Json>, metaData: map<string, Json>, orgId: string, slug: string) {
    && "fiduciaOrgId" in stored && stored["fiduciaOrgId"] == Str(orgId)
    && "fiduciaCustomerSlug" in stored && stored["fiduciaCustomerSlug"] == Str(slug)
    && forall key :: key != "fiduciaOrgId" && key != "fiduciaCustomerSlug" ==>
         (key in stored <==> key in metaData) && (key in stored ==> stored[key] == metaData[key])
  }

  lemma ScopedStoresMeta(metaData: map<string, Json>, orgId: string, slug: string)
    ensures StoresMeta(Scoped(metaData, orgId, slug), metaData, orgId, slug)
  {
    KeysDiffer();
  }

  lemma KeysDiffer()
    ensures ORG_META_KEY != LOGICAL_SLUG_META_KEY
  {
    assert |ORG_META_KEY| != |LOGICAL_SLUG_META_KEY|;
  }

  /** Scoping what a reader was shown gives back the stored metadata. */
  lemma ReadThenScope(id: FunctionId, row: Row, orgId: string)
    requires Obj(row.metaData).GetStr(ORG_META_KEY) == Some(orgId)
    requires Obj(row.metaData).GetStr(LOGICAL_SLUG_META_KEY).Some?
    ensures Scoped(ReadRow(id, row).metaData, orgId, ReadRow(id, row).slug) == row.metaData
  {
    hide ORG_META_KEY, LOGICAL_SLUG_META_KEY;
    KeysDiffer();
  }

  function Created(rows: Table, orgId: string, id: FunctionId, physicalSlug: string, clean: Clean): Table {
    var metaData := Scoped(clean.metaData, orgId, clean.logicalSlug);
    rows[id := Row(physicalSlug, clean.code, clean.profile, metaData, Draft, false)]
  }

  function Updated(rows: Table, orgId: string, id: FunctionId, clean: Clean): Table {
    if Visible(rows, orgId, id) then
      rows[id := rows[id].(code := clean.code, profile := clean.profile,
                           metaData := Scoped(clean.metaData, orgId, clean.logicalSlug), status := Draft)]
    else rows
  }

  function Deleted(rows: Table, orgId: string, id: FunctionId): Table {
    if Visible(rows, orgId, id) then rows[id := rows[id].(softDeleted := true, status := Archived)] else rows
  }

  function PausedTable(rows: Table, orgId: string, id: FunctionId): Table {
    if Visible(rows, orgId, id) then rows[id := rows[id].(status := Paused)] else rows
  }

  /** Activation goes ahead exactly when the row is visible and still has the code that was checked. */
  predicate CanActivate(rows: Table, orgId: string, record: Record) {
    Visible(rows, orgId, record.id) && rows[record.id].code == record.code
  }

  function Activated(rows: Table, orgId: string, record: Record): Table {
    if CanActivate(rows, orgId, record) then
      rows[record.id := rows[record.id].(status := Active, metaData := Scoped(record.metaData, orgId, record.slug))]
    else rows
  }

  /** Whether the output of a check counts as a pass: the runner answered and did not say `"ok":false`. */
  predicate Passes(output: Result<string>) {
    output.Ok? && !Contains(output.value, "\"ok\":false")
  }

  predicate Contains(text: string, pattern: string) {
    exists k :: 0 <= k <= |text| && pattern <= text[k..]
  }

  class FunctionStore {
    var rows: Table

    constructor ()
      ensures rows == map[]
    {
      rows := map[];
    }

    /**
     * Found exactly when the row is live and the caller's own. What is shown has no reserved key and otherwise all
     * of the customer's metadata; storing it back in the organisation's scope would give the row's metadata again.
     */
    method Get(orgId: string, id: FunctionId) returns (r: Outcome<Record>)
      ensures r.Done? || r.NotFound?
      ensures r.Done? <==>
        id in rows && !rows[id].softDeleted && Obj(rows[id].metaData).GetStr(ORG_META_KEY) == Some(orgId)
      ensures r.Done? ==> ShowsRow(r.value, id, rows[id])
      ensures r.Done? && Obj(rows[id].metaData).GetStr(LOGICAL_SLUG_META_KEY).Some? ==>
        Scoped(r.value.metaData, orgId, r.value.slug) == rows[id].metaData
    {
      hide ORG_META_KEY, LOGICAL_SLUG_META_KEY;
      if !Visible(rows, orgId, id) {
        return NotFound;
      }
      r := Done(ReadRow(id, rows[id]));
      ReadRowShowsRow(id, rows[id]);
      if Obj(rows[id].metaData).GetStr(LOGICAL_SLUG_META_KEY).Some? {
        ReadThenScope(id, rows[id], orgId);
      }
    }

    method Create(orgId: string, id: FunctionId, physicalSlug: string, clean: Clean) returns (record: Record)
      modifies this
      ensures rows == Created(old(rows), orgId, id, physicalSlug, clean)
      ensures id in rows && rows == old(rows)[id := rows[id]]
      ensures rows[id].physicalSlug == physicalSlug && rows[id].code == clean.code && rows[id].profile == clean.profile
      ensures rows[id].status == Draft && !rows[id].softDeleted
      ensures StoresMeta(rows[id].metaData, clean.metaData, orgId, clean.logicalSlug)
      ensures record.id == id && record.code == clean.code && record.status == Draft
    {
      var metadata := clean.metaData;
      metadata := metadata[ORG_META_KEY := Str(orgId)];
      metadata := metadata[LOGICAL_SLUG_META_KEY := Str(clean.logicalSlug)];
      var row := Row(physicalSlug, clean.code, clean.profile, metadata, Draft, false);
      rows := rows[id := row];
      record := ReadRow(id, row);
      ScopedStoresMeta(clean.metaData, orgId, clean.logicalSlug);
    }

    method Update(orgId: string, id: FunctionId, clean: Clean) returns (r: Outcome<Record>)
      modifies this
      ensures rows == Updated(old(rows), orgId, id, clean)
      ensures !Visible(old(rows), orgId, id) ==> rows == old(rows)
      ensures Visible(old(rows), orgId, id) ==>
        && id in rows && rows == old(rows)[id := rows[id]]
        && rows[id].code == clean.code && rows[id].profile == clean.profile && rows[id].status == Draft
        && rows[id].physicalSlug == old(rows)[id].physicalSlug && !rows[id].softDeleted
        && StoresMeta(rows[id].metaData, clean.metaData, orgId, clean.logicalSlug)
      ensures r == if Visible(old(rows), orgId, id) then Done(ReadRow(id, rows[id])) else NotFound
    {
      if !Visible(rows, orgId, id) {
        return NotFound;
      }
      var row := rows[id];
      ScopedStoresMeta(clean.metaData, orgId, clean.logicalSlug);
      row := row.(code := clean.code);
      row := row.(profile := clean.profile);
      row := row.(status := Draft, metaData := Scoped(clean.metaData, orgId, clean.logicalSlug));
      rows := rows[id := row];
      r := Done(ReadRow(id, row));
    }

    method Delete(orgId: string, id: FunctionId) returns (r: Outcome<()>)
      modifies this
      ensures rows == Deleted(old(rows), orgId, id)
      ensures !Visible(old(rows), orgId, id) ==> rows == old(rows)
      ensures Visible(old(rows), orgId, id) ==>
        rows == old(rows)[id := old(rows)[id].(softDeleted := true, status := Archived)]
      ensures r == if Visible(old(rows), orgId, id) then Done(()) else NotFound
    {
      if !Visible(rows, orgId, id) {
        return NotFound;
      }
      rows := rows[id := rows[id].(softDeleted := true, status := Archived)];
      r := Done(());
    }

    method Pause(orgId: string, id: FunctionId) returns (r: Outcome<Record>)
      modifies this
      ensures rows == PausedTable(old(rows), orgId, id)
      ensures !Visible(old(rows), orgId, id) ==> rows == old(rows)
      ensures Visible(old(rows), orgId, id) ==> rows == old(rows)[id := old(rows)[id].(status := Paused)]
      ensures r == if Visible(old(rows), orgId, id) then Done(ReadRow(id, rows[id])) else NotFound
    {
      if !Visible(rows, orgId, id) {
        return NotFound;
      }
      rows := rows[id := rows[id].(status := Paused)];
      r := Done(ReadRow(id, rows[id]));
    }

    /** A row that no longer qualifies is a conflict, not a missing row. */
    method ActivateChecked(orgId: string, record: Record) returns (r: Outcome<Record>)
      modifies this
      ensures rows == Activated(old(rows), orgId, record)
      ensures r.Done? <==> Visible(old(rows), orgId, record.id) && old(rows)[record.id].code == record.code
      ensures r.Done? ==>
        && record.id in rows
        && rows == old(rows)[record.id :=
                     old(rows)[record.id].(status := Active, metaData := rows[record.id].metaData)]
        && StoresMeta(rows[record.id].metaData, record.metaData, orgId, record.slug)
      ensures !r.Done? ==> r.Conflict? && rows == old(rows)
      ensures r == if CanActivate(old(rows), orgId, record) then Done(ReadRow(record.id, rows[record.id])) else Conflict
    {
      var id := record.id;
      if !Visible(rows, orgId, id) || rows[id].code != record.code {
        return Conflict;
      }
      ScopedStoresMeta(record.metaData, orgId, record.slug);
      var metadata := record.metaData;
      metadata := metadata[ORG_META_KEY := Str(orgId)];
      metadata := metadata[LOGICAL_SLUG_META_KEY := Str(record.slug)];
      rows := rows[id := rows[id].(status := Active, metaData := metadata)];
      r := Done(ReadRow(id, rows[id]));
    }
  }
}
