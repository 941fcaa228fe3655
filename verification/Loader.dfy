/** Loading one section into the database in batches, with the checks made on every record. */
module Loader {
  import opened Outcomes
  import opened Lines
  import opened Registry
  import opened Tables
  import opened Sections
  import opened Archive
  import opened Dump

  datatype RestoreError = Unreadable | Misplaced | Rejected | CountMismatch

  const BATCH: nat := 1000

  // ---- What a member may contain ----

  /** Every line reads, every row belongs in the section, and the per-model counts are the recorded ones. */
  ghost predicate Acceptable(records: seq<Option<Row>>, allowed: seq<Model>, expected: map<Model, nat>) {
    && (forall i | 0 <= i < |records| :: records[i].Some? && records[i].value.model in allowed)
    && Tally(Values(records)) == NonZero(expected)
  }

  function Mapped(transform: Row -> Row, rs: seq<Row>): (ms: seq<Row>)
    ensures |ms| == |rs| && forall i | 0 <= i < |rs| :: ms[i] == transform(rs[i])
  {
    seq(|rs|, i requires 0 <= i < |rs| => transform(rs[i]))
  }

  function MediaNames(rs: seq<Row>): set<string> {
    set r | r in rs && MediaName(r) != "" :: MediaName(r)
  }

  lemma {:induction false} AllSome(records: seq<Option<Row>>)
    requires forall i | 0 <= i < |records| :: records[i].Some?
    ensures records == Somes(Values(records))
    decreases |records|
  {
    if records != [] {
      AllSome(records[..|records| - 1]);
    }
  }

  lemma MappedStep(transform: Row -> Row, rs: seq<Row>, r: Row)
    ensures Mapped(transform, rs + [r]) == Mapped(transform, rs) + [transform(r)]
    ensures Mapped(transform, rs + [r])[..|rs|] == Mapped(transform, rs)
  {
  }

  lemma TallyStep(rs: seq<Row>, r: Row)
    ensures Tally(rs + [r]) == Tally(rs)[r.model := Get(Tally(rs), r.model) + 1]
  {
    assert (rs + [r])[..|rs|] == rs;
  }

  lemma MediaNamesStep(rs: seq<Row>, r: Row)
    ensures MediaNames(rs + [r]) == if MediaName(r) == "" then MediaNames(rs) else MediaNames(rs) + {MediaName(r)}
  {
    forall n ensures n in MediaNames(rs + [r]) <==> n in MediaNames(rs) || (n == MediaName(r) && n != "") {
      if n == MediaName(r) && n != "" { assert r in rs + [r]; }
    }
  }

  /** The records read so far: all read, all allowed, counted, and their media names collected. */
  ghost predicate Seen(
      records: seq<Option<Row>>, allowed: seq<Model>, transform: Row -> Row, seen: seq<Row>, perModel: map<Model, nat>,
      referenced: set<string>)
  {
    && records == Somes(seen) && perModel == Tally(seen) && referenced == MediaNames(Mapped(transform, seen))
    && (forall r | r in seen :: r.model in allowed)
  }

  lemma SeenStep(
      records: seq<Option<Row>>, allowed: seq<Model>, transform: Row -> Row, seen: seq<Row>, perModel: map<Model, nat>,
      referenced: set<string>, row: Row)
    requires Seen(records, allowed, transform, seen, perModel, referenced) && row.model in allowed
    ensures
      var name := MediaName(transform(row));
      Seen(records + [Some(row)], allowed, transform, seen + [row], perModel[row.model := Get(perModel, row.model) + 1],
           if name == "" then referenced else referenced + {name})
  {
    TallyStep(seen, row);
    MappedStep(transform, seen, row);
    MediaNamesStep(Mapped(transform, seen), transform(row));
    assert Somes(seen + [row]) == Somes(seen) + [Some(row)];
  }

  lemma SeenAll(
      records: seq<Option<Row>>, allowed: seq<Model>, transform: Row -> Row, seen: seq<Row>, perModel: map<Model, nat>,
      referenced: set<string>)
    requires Seen(records, allowed, transform, seen, perModel, referenced)
    ensures Values(records) == seen && forall i | 0 <= i < |records| :: records[i].Some? && records[i].value.model in allowed
  {
    ValuesOfSomes(seen);
    forall i | 0 <= i < |records| ensures records[i].Some? && records[i].value.model in allowed {
      assert records[i] == Some(seen[i]) && seen[i] in seen;
    }
  }

  /** A clash among the first records refuses the whole member. */
  lemma ClashRefuses(before: Rows, records: seq<Option<Row>>, n: nat, transform: Row -> Row, seen: seq<Row>)
    requires n <= |records| && records[..n] == Somes(seen) && InsertAll(before, Mapped(transform, seen)).None?
    ensures (forall i | 0 <= i < |records| :: records[i].Some?) ==> InsertAll(before, Mapped(transform, Values(records))).None?
  {
    if forall i | 0 <= i < |records| :: records[i].Some? {
      AllSome(records);
      var all := Values(records);
      forall i | 0 <= i < n ensures all[i] == seen[i] {
        assert records[i] == Some(all[i]) && records[..n][i] == Some(seen[i]);
      }
      assert Mapped(transform, all)[..n] == Mapped(transform, seen);
      ClashStays(before, Mapped(transform, seen), Mapped(transform, all));
    }
  }

  ghost predicate Refused(before: Rows, records: seq<Option<Row>>, allowed: seq<Model>, write: bool, transform: Row -> Row) {
    (forall i | 0 <= i < |records| :: records[i].Some? && records[i].value.model in allowed) ==>
      write && InsertAll(before, Mapped(transform, Values(records))).None?
  }

  // ---- Batches ----

  function Flatten(batches: seq<seq<Row>>): seq<Row> {
    if batches == [] then [] else Flatten(batches[..|batches| - 1]) + batches[|batches| - 1]
  }

  /** One INSERT: rows of a single model, at least one and at most a thousand. */
  ghost predicate IsBatch(b: seq<Row>) {
    0 < |b| <= BATCH && forall i | 0 <= i < |b| :: b[i].model == b[0].model
  }

  ghost predicate AreBatches(batches: seq<seq<Row>>) {
    forall i | 0 <= i < |batches| :: IsBatch(batches[i])
  }

  /** The rows waiting to be written: fewer than a thousand, all of the current model. */
  ghost predicate Pending(batch: seq<Row>, current: Option<Model>) {
    |batch| < BATCH && (forall i | 0 <= i < |batch| :: Some(batch[i].model) == current)
  }

  /** What was written and what is pending is the record stream so far. */
  ghost predicate Loaded(
      before: Rows, now: Rows, write: bool, transform: Row -> Row, seen: seq<Row>, batches: seq<seq<Row>>, batch: seq<Row>)
  {
    && AreBatches(batches) && Flatten(batches) + batch == Mapped(transform, seen)
    && (if write then InsertAll(before, Flatten(batches)) == Some(now) else now == before)
  }

  /** A key that clashes early clashes whatever follows. */
  lemma ClashStays(t: Rows, a: seq<Row>, b: seq<Row>)
    requires |a| <= |b| && a == b[..|a|] && InsertAll(t, a).None?
    ensures InsertAll(t, b).None?
  {
    InsertAppend(t, a, b[|a|..]);
    assert b == a + b[|a|..];
  }

  lemma FlattenStep(batches: seq<seq<Row>>, batch: seq<Row>)
    ensures Flatten(batches + [batch]) == Flatten(batches) + batch
  {
    assert (batches + [batch])[..|batches|] == batches;
  }

  class Database {
    var rows: Rows

    constructor (initial: Rows)
      ensures rows == initial
    {
      rows := initial;
    }

    /** One INSERT statement; a taken key is an integrity error. */
    method BulkCreate(batch: seq<Row>) returns (ok: bool)
      modifies this
      ensures ok <==> InsertAll(old(rows), batch).Some?
      ensures rows == if ok then InsertAll(old(rows), batch).value else old(rows)
    {
      var after := rows;
      assert batch[..0] == [];
      for i := 0 to |batch|
        invariant InsertAll(rows, batch[..i]) == Some(after) && rows == old(rows)
      {
        TakeStep(batch, i);
        if KeyOf(batch[i]) in after {
          ClashStays(rows, batch[..i + 1], batch);
          return false;
        }
        after := after[KeyOf(batch[i]) := batch[i]];
      }
      assert batch[..|batch|] == batch;
      rows := after;
      ok := true;
    }

    /** Write the pending rows, if any. */
    method Flush(batch: seq<Row>, write: bool, ghost before: Rows, ghost batches: seq<seq<Row>>)
      returns (ok: bool, ghost batches': seq<seq<Row>>)
      requires batch == [] || IsBatch(batch)
      requires AreBatches(batches) && if write then InsertAll(before, Flatten(batches)) == Some(rows) else rows == before
      modifies this
      ensures !ok ==> write && InsertAll(before, Flatten(batches) + batch).None?
      ensures ok ==> AreBatches(batches') && Flatten(batches') == Flatten(batches) + batch
      ensures ok ==> if write then InsertAll(before, Flatten(batches')) == Some(rows) else rows == before
    {
      batches' := batches;
      ok := true;
      if batch == [] {
        return;
      }
      FlattenStep(batches, batch);
      InsertAppend(before, Flatten(batches), batch);
      if write {
        ok := BulkCreate(batch);
      }
      batches' := batches + [batch];
    }

    /** Append one row: a change of model or a full batch writes what is pending. */
    method Append(row: Row, batch: seq<Row>, current: Option<Model>, write: bool, transform: Row -> Row,
                  ghost before: Rows, ghost seen: seq<Row>, ghost batches: seq<seq<Row>>)
      returns (ok: bool, batch': seq<Row>, ghost batches': seq<seq<Row>>)
      requires transform(row).model == row.model
      requires Pending(batch, current) && Loaded(before, rows, write, transform, seen, batches, batch)
      modifies this
      ensures !ok ==> write && InsertAll(before, Mapped(transform, seen + [row])).None?
      ensures ok ==> Pending(batch', Some(row.model)) && Loaded(before, rows, write, transform, seen + [row], batches', batch')
    {
      ghost var all := Mapped(transform, seen + [row]);
      MappedStep(transform, seen, row);
      batch', batches' := batch, batches;
      if current != Some(row.model) {
        ok, batches' := Flush(batch, write, before, batches);
        if !ok {
          ClashStays(before, Mapped(transform, seen), all);
          return;
        }
        batch' := [];
      }
      batch' := batch' + [transform(row)];
      assert Flatten(batches') + batch' == all;
      ok := true;
      if |batch'| >= BATCH {
        ghost var held := batches';
        ok, batches' := Flush(batch', write, before, held);
        batch' := [];
      }
    }

    /** Read record by record, refuse what does not belong, and write full batches; the last one stays pending. */
    method LoadRecords(records: seq<Option<Row>>, allowed: seq<Model>, write: bool, transform: Row -> Row)
      returns (error: Option<RestoreError>, perModel: map<Model, nat>, referenced: set<string>, batch: seq<Row>,
               ghost seen: seq<Row>, ghost batches: seq<seq<Row>>)
      requires forall x :: transform(x).model == x.model
      modifies this
      ensures error.Some? ==> Refused(old(rows), records, allowed, write, transform) && (!write ==> rows == old(rows))
      ensures error.None? ==> Seen(records, allowed, transform, seen, perModel, referenced)
      ensures error.None? ==> batch == [] || IsBatch(batch)
      ensures error.None? ==> Loaded(old(rows), rows, write, transform, seen, batches, batch)
    {
      var current: Option<Model> := None;
      perModel, referenced, batch, seen, batches := map[], {}, [], [], [];
      for i := 0 to |records|
        invariant Seen(records[..i], allowed, transform, seen, perModel, referenced)
        invariant Pending(batch, current) && Loaded(old(rows), rows, write, transform, seen, batches, batch)
      {
        TakeStep(records, i);
        if records[i].None? {
          error := Some(Unreadable);
          return;
        }
        var row := records[i].value;
        if row.model !in allowed {
          error := Some(Misplaced);
          return;
        }
        SeenStep(records[..i], allowed, transform, seen, perModel, referenced, row);
        perModel := perModel[row.model := Get(perModel, row.model) + 1];
        var ok;
        ok, batch, batches := Append(row, batch, current, write, transform, old(rows), seen, batches);
        seen := seen + [row];
        if !ok {
          ClashRefuses(old(rows), records, i + 1, transform, seen);
          error := Some(Rejected);
          return;
        }
        current := Some(row.model);
        if MediaName(transform(row)) != "" {
          referenced := referenced + {MediaName(transform(row))};
        }
      }
      assert records[..|records|] == records;
      error := None;
    }

    /** Load one member, and compare its per-model counts with the manifest's. */
    method LoadMember(records: seq<Option<Row>>, allowed: seq<Model>, expected: map<Model, nat>, write: bool, transform: Row -> Row)
      returns (r: Result<map<Model, nat>, RestoreError>, referenced: set<string>, ghost batches: seq<seq<Row>>)
      requires forall x :: transform(x).model == x.model
      modifies this
      ensures r.Ok? <==> Acceptable(records, allowed, expected) &&
                         (write ==> InsertAll(old(rows), Mapped(transform, Values(records))).Some?)
      ensures r.Ok? ==> r.value == Tally(Values(records)) && referenced == MediaNames(Mapped(transform, Values(records)))
      ensures r.Ok? ==> AreBatches(batches) && Flatten(batches) == Mapped(transform, Values(records))
      ensures r.Ok? && write ==> InsertAll(old(rows), Mapped(transform, Values(records))) == Some(rows)
      ensures !write ==> rows == old(rows)
    {
      ghost var seen;
      var error, perModel, batch, ok;
      error, perModel, referenced, batch, seen, batches := LoadRecords(records, allowed, write, transform);
      if error.Some? {
        r := Err(error.value);
        return;
      }
      SeenAll(records, allowed, transform, seen, perModel, referenced);
      ok, batches := Flush(batch, write, old(rows), batches);
      if !ok {
        r := Err(Rejected);
      } else if perModel != NonZero(expected) {
        r := Err(CountMismatch);
      } else {
        r := Ok(perModel);
      }
    }
  }
}
