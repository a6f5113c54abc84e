/**
 * `save_companies_data`: for every company of a batch, look its name up in
 * the `companies` table and insert a row only when no row has that name.
 * The MySQL table is modelled as the sequence of its rows, in insertion order.
 */
module Persistence {
  import opened Wrappers
  import opened Companies

  /** The columns the INSERT writes, in the order it writes them. */
  const Keys: seq<string> := ["name", "image_url", "description", "website_url"]

  /** A row of the `companies` table (its auto-assigned id is its position). */
  datatype Row = Row(name: string, imageUrl: string, description: string, websiteUrl: string) {
    /** The value stored under a column name. */
    function Column(key: string): string
      requires key in Keys
    {
      match key
      case "name" => name
      case "image_url" => imageUrl
      case "description" => description
      case _ => websiteUrl
    }
  }

  /** The row the INSERT adds for a company: the values `company[key]` for the
      keys in order, bound positionally to the columns of the same names. */
  function NewRow(c: Company): (r: Row)
    ensures forall i :: 0 <= i < |Keys| ==> r.Column(Keys[i]) == c.Get(Keys[i])
  {
    Row(c.name, c.imageUrl, c.description, c.websiteUrl)
  }

  /** The names stored in a table. */
  function Names(rows: seq<Row>): set<string> {
    set r | r in rows :: r.name
  }

  /** `SELECT id FROM companies WHERE name = %s` followed by `fetchone()`:
      the position of a row with that name, or nothing. The query has no
      `ORDER BY`, so the database may return any matching row; the model
      returns the first. Only whether a row was found is used. */
  function SelectByName(rows: seq<Row>, name: string): (found: Option<nat>)
    ensures found.None? <==> name !in Names(rows)
    ensures found.Some? ==> found.value < |rows| && rows[found.value].name == name
    ensures found.Some? ==> forall i :: 0 <= i < found.value ==> rows[i].name != name
  {
    if rows == [] then None
    else if rows[0].name == name then Some(0)
    else
      assert Names(rows) == {rows[0].name} + Names(rows[1..]) by {
        assert rows == [rows[0]] + rows[1..];
      }
      match SelectByName(rows[1..], name)
      case None => None
      case Some(i) => Some(i + 1)
  }

  /** One step of the loop: insert the company unless its name is already
      stored. Afterwards the name is stored, the old rows are untouched, and
      a row was added exactly when the name was new. */
  function InsertIfAbsent(rows: seq<Row>, c: Company): (r: seq<Row>)
    ensures Names(r) == Names(rows) + {c.name}
    ensures |rows| <= |r| && r[..|rows|] == rows
    ensures |r| == |rows| + 1 <==> c.name !in Names(rows)
    ensures |r| == |rows| + 1 ==> r[|rows|] == NewRow(c)
    ensures c.name in Names(rows) ==> r == rows
  {
    if SelectByName(rows, c.name).None? then
      NamesAppend(rows, NewRow(c));
      rows + [NewRow(c)]
    else rows
  }

  /** The table after the whole batch has gone through the loop, one company
      at a time, each lookup seeing the rows inserted before it. The table
      only grows: the rows it held before are kept, unchanged, in place. */
  function Saved(rows: seq<Row>, batch: seq<Company>): (r: seq<Row>)
    ensures |rows| <= |r| && r[..|rows|] == rows
    decreases |batch|
  {
    if batch == [] then rows
    else InsertIfAbsent(Saved(rows, batch[..|batch| - 1]), batch[|batch| - 1])
  }

  /** The in-memory stand-in for the `companies` table of the database. */
  class Table {
    var rows: seq<Row>

    constructor (initial: seq<Row>)
      ensures rows == initial
    {
      rows := initial;
    }
  }

  /** `save_companies_data`: the check-then-insert loop over the batch. */
  method SaveCompaniesData(table: Table, companies: seq<Company>)
    modifies table
    ensures table.rows == Saved(old(table.rows), companies)
  {
    for i := 0 to |companies|
      invariant table.rows == Saved(old(table.rows), companies[..i])
    {
      var company := companies[i];
      var found := SelectByName(table.rows, company.name);
      if found.None? {
        table.rows := table.rows + [NewRow(company)];
      }
      assert companies[..i + 1][..i] == companies[..i];
    }
    assert companies[..|companies|] == companies;
  }

  /** Appending a row adds its name to the stored names. */
  lemma NamesAppend(rows: seq<Row>, row: Row)
    ensures Names(rows + [row]) == Names(rows) + {row.name}
  {
    var r := rows + [row];
    forall x | x in Names(r) ensures x in Names(rows) + {row.name} {
      var q :| q in r && q.name == x;
      if q != row {
        var k :| 0 <= k < |r| && r[k] == q;
        assert rows[k] == q;
      }
    }
    forall x | x in Names(rows) ensures x in Names(r) {
      var q :| q in rows && q.name == x;
      var k :| 0 <= k < |rows| && rows[k] == q;
      assert r[k] == q;
    }
  }

  /** The names of a prefix are among the names of the whole table. */
  lemma NamesOfPrefix(rows: seq<Row>, r: seq<Row>)
    requires |rows| <= |r| && r[..|rows|] == rows
    ensures Names(rows) <= Names(r)
  {
    forall x | x in Names(rows) ensures x in Names(r) {
      var q :| q in rows && q.name == x;
      var k :| 0 <= k < |rows| && rows[k] == q;
      assert r[k] == q;
    }
  }

  /** The batch without its last company, and the table before that company. */
  lemma SavedLast(rows: seq<Row>, batch: seq<Company>)
    requires batch != []
    ensures var before := Saved(rows, batch[..|batch| - 1]);
            var last := batch[|batch| - 1];
            Saved(rows, batch) == if last.name in Names(before) then before else before + [NewRow(last)]
  {
  }

  /** The names of a batch of companies. */
  function BatchNames(batch: seq<Company>): set<string> {
    set c | c in batch :: c.name
  }

  /** Extending a batch by one company adds that company's name. */
  lemma BatchNamesAppend(init: seq<Company>, last: Company)
    ensures BatchNames(init + [last]) == BatchNames(init) + {last.name}
  {
    var b := init + [last];
    forall x | x in BatchNames(b) ensures x in BatchNames(init) + {last.name} {
      var c :| c in b && c.name == x;
      if c != last {
        var k :| 0 <= k < |b| && b[k] == c;
        assert init[k] == c;
      }
    }
    forall x | x in BatchNames(init) ensures x in BatchNames(b) {
      var c :| c in init && c.name == x;
      var k :| 0 <= k < |init| && init[k] == c;
      assert b[k] == c;
    }
  }

  /** After the batch, the stored names are those stored before plus the
      names of the batch. */
  lemma {:induction false} SavedNames(rows: seq<Row>, batch: seq<Company>)
    ensures Names(Saved(rows, batch)) == Names(rows) + BatchNames(batch)
    decreases |batch|
  {
    if batch != [] {
      var init, last := batch[..|batch| - 1], batch[|batch| - 1];
      SavedNames(rows, init);
      assert batch == init + [last];
      BatchNamesAppend(init, last);
      assert Saved(rows, batch) == InsertIfAbsent(Saved(rows, init), last);
    }
  }

  /** Every row the batch adds carries a name that was not stored before. */
  lemma {:induction false} SavedAddsUnstored(rows: seq<Row>, batch: seq<Company>)
    ensures var r := Saved(rows, batch);
      forall i :: |rows| <= i < |r| ==> r[i].name !in Names(rows)
    decreases |batch|
  {
    if batch != [] {
      var init, last := batch[..|batch| - 1], batch[|batch| - 1];
      SavedAddsUnstored(rows, init);
      var before := Saved(rows, init);
      SavedLast(rows, batch);
      if last.name !in Names(before) {
        NamesOfPrefix(rows, before);
        var r := before + [NewRow(last)];
        forall i | |rows| <= i < |r| ensures r[i].name !in Names(rows) {
          if i < |before| { assert r[i] == before[i]; }
        }
      }
    }
  }

  /** Every row the batch adds is the row of a company of the batch. */
  lemma {:induction false} SavedAddsFromBatch(rows: seq<Row>, batch: seq<Company>)
    ensures var r := Saved(rows, batch);
      forall i :: |rows| <= i < |r| ==> exists c :: c in batch && r[i] == NewRow(c)
    decreases |batch|
  {
    if batch != [] {
      var init, last := batch[..|batch| - 1], batch[|batch| - 1];
      SavedAddsFromBatch(rows, init);
      var before := Saved(rows, init);
      SavedLast(rows, batch);
      assert forall c :: c in init ==> c in batch;
      if last.name !in Names(before) {
        var r := before + [NewRow(last)];
        forall i | |rows| <= i < |r| ensures exists c :: c in batch && r[i] == NewRow(c) {
          if i < |before| {
            assert r[i] == before[i];
          } else {
            assert last in batch && r[i] == NewRow(last);
          }
        }
      }
    }
  }

  /** No two rows the batch adds share a name: a name repeated within the
      batch is inserted once. */
  lemma {:induction false} SavedAddsOnce(rows: seq<Row>, batch: seq<Company>)
    ensures var r := Saved(rows, batch);
      forall i, j :: |rows| <= i < j < |r| ==> r[i].name != r[j].name
    decreases |batch|
  {
    if batch != [] {
      var init, last := batch[..|batch| - 1], batch[|batch| - 1];
      SavedAddsOnce(rows, init);
      var before := Saved(rows, init);
      SavedLast(rows, batch);
      if last.name !in Names(before) {
        var r := before + [NewRow(last)];
        forall i, j | |rows| <= i < j < |r| ensures r[i].name != r[j].name {
          assert r[i] == before[i];
          if j == |before| {
            assert before[i] in before;
          } else {
            assert r[j] == before[j];
          }
        }
      }
    }
  }

  /** A table without two rows of the same name keeps that property. */
  ghost predicate UniqueNames(rows: seq<Row>) {
    forall i, j :: 0 <= i < j < |rows| ==> rows[i].name != rows[j].name
  }

  lemma SavedKeepsNamesUnique(rows: seq<Row>, batch: seq<Company>)
    requires UniqueNames(rows)
    ensures UniqueNames(Saved(rows, batch))
  {
    var r := Saved(rows, batch);
    SavedAddsUnstored(rows, batch);
    SavedAddsOnce(rows, batch);
    forall i, j | 0 <= i < j < |r| ensures r[i].name != r[j].name {
      if j >= |rows| && i < |rows| {
        assert r[i] == rows[i];
        assert rows[i] in rows;
      }
    }
  }

  /** A batch whose names are all stored already changes nothing. */
  lemma {:induction false} SavedWhenAllStored(rows: seq<Row>, batch: seq<Company>)
    requires forall c :: c in batch ==> c.name in Names(rows)
    ensures Saved(rows, batch) == rows
    decreases |batch|
  {
    if batch != [] {
      var init := batch[..|batch| - 1];
      assert forall c :: c in init ==> c in batch;
      SavedWhenAllStored(rows, init);
      assert batch[|batch| - 1] in batch;
    }
  }

  /** Saving the same batch a second time leaves the table unchanged. */
  lemma SavedIdempotent(rows: seq<Row>, batch: seq<Company>)
    ensures Saved(Saved(rows, batch), batch) == Saved(rows, batch)
  {
    SavedNames(rows, batch);
    SavedWhenAllStored(Saved(rows, batch), batch);
  }
}
