/**
 * The quote-rotation store: a table of quote rows, each with a usage
 * counter. The SQLite table `quotes` becomes the field `rows` of the class
 * `MiriamDatabase`, in insertion order (SQLite itself scans in id order, which
 * the model does not track); every SQL statement becomes a method whose loop
 * walks the rows as the database engine does.
 */
module Database {
  import opened Wrappers
  import Text

  /** The value stored for `last_used`: an abstract clock reading supplied by the caller. */
  type Stamp = nat

  /** One row of the `quotes` table (the `created_at` column is not modelled). */
  datatype Row = Row(
    id: int,
    category: string,
    kind: string,        // the `type` column
    setup: string,
    punchline: string,
    source: string,
    difficulty: int,     // the `difficulty_level` column
    tags: string,        // the comma-joined tag list
    usedCount: nat,
    lastUsed: Option<Stamp>)

  /** One record of the corpus: a JSON object whose keys may be absent. */
  datatype Record = Record(
    id: Option<int>,
    category: Option<string>,
    kind: Option<string>,
    setup: Option<string>,
    punchline: Option<string>,
    source: Option<string>,
    difficulty: Option<int>,
    tags: Option<seq<string>>)

  /** Why seeding failed: a required key is absent, or an id is already in the table. */
  datatype SeedError = MissingKey(index: nat, key: string) | DuplicateId(index: nat, id: int)

  /** The result of `get_stats`. */
  datatype Stats = Stats(total: nat, used: nat, unused: int, byCategory: map<string, nat>)

  // ---------------------------------------------------------------------------
  // Seeding

  /** The record has every key the INSERT reads with `quote[...]`. */
  predicate HasRequired(rec: Record)
  {
    rec.id.Some? && rec.category.Some? && rec.kind.Some? && rec.punchline.Some?
  }

  /** The first required key that is absent, in the order the INSERT parameters are evaluated. */
  function FirstMissingKey(rec: Record): (key: Option<string>)
    ensures key.None? <==> HasRequired(rec)
    ensures key == Some("id") <==> rec.id.None?
    ensures key == Some("category") <==> rec.id.Some? && rec.category.None?
    ensures key == Some("type") <==> rec.id.Some? && rec.category.Some? && rec.kind.None?
    ensures key == Some("punchline") <==> rec.id.Some? && rec.category.Some? && rec.kind.Some? && rec.punchline.None?
  {
    if rec.id.None? then Some("id")
    else if rec.category.None? then Some("category")
    else if rec.kind.None? then Some("type")
    else if rec.punchline.None? then Some("punchline")
    else None
  }

  /** The row the INSERT stores for a record: absent optional keys take their defaults. */
  function ToRow(rec: Record): (r: Row)
    requires HasRequired(rec)
    ensures r.id == rec.id.value && r.category == rec.category.value
    ensures r.kind == rec.kind.value && r.punchline == rec.punchline.value
    ensures r.setup == rec.setup.GetOr("") && r.source == rec.source.GetOr("")
    ensures r.difficulty == rec.difficulty.GetOr(5)
    ensures rec.tags.None? ==> r.tags == ""
    ensures r.usedCount == 0 && r.lastUsed.None?
  {
    Row(rec.id.value, rec.category.value, rec.kind.value, rec.setup.GetOr(""),
        rec.punchline.value, rec.source.GetOr(""), rec.difficulty.GetOr(5),
        Text.Join(rec.tags.GetOr([]), ","), 0, None)
  }

  /** The tag list survives storage: splitting the stored column on commas gives it back. */
  lemma TagsRoundTrip(rec: Record)
    requires HasRequired(rec) && rec.tags.Some? && |rec.tags.value| >= 1
    requires forall k :: 0 <= k < |rec.tags.value| ==> ',' !in rec.tags.value[k]
    ensures Text.Split(ToRow(rec).tags, ",") == rec.tags.value
  {
    Text.SplitJoinChar(rec.tags.value, ',');
  }

  /** The first `n` records can all be inserted: required keys present, ids distinct. */
  predicate WellFormedUpTo(corpus: seq<Record>, n: nat)
    requires n <= |corpus|
  {
    && (forall k :: 0 <= k < n ==> HasRequired(corpus[k]))
    && (forall j, k :: 0 <= j < k < n ==> corpus[j].id != corpus[k].id)
  }

  /** The whole corpus can be inserted. */
  predicate WellFormed(corpus: seq<Record>)
  {
    WellFormedUpTo(corpus, |corpus|)
  }

  /** The rows of a freshly seeded table, in corpus order. */
  function SeedRows(corpus: seq<Record>): (rows: seq<Row>)
    requires WellFormed(corpus)
    ensures |rows| == |corpus|
    ensures forall k :: 0 <= k < |rows| ==> rows[k] == ToRow(corpus[k])
    ensures UniqueIds(rows)
  {
    seq(|corpus|, k requires 0 <= k < |corpus| => ToRow(corpus[k]))
  }

  /** `error` is the failure the INSERT loop meets first. */
  predicate Explains(corpus: seq<Record>, error: SeedError)
  {
    && error.index < |corpus|
    && WellFormedUpTo(corpus, error.index)
    && match error
       case MissingKey(i, key) => FirstMissingKey(corpus[i]) == Some(key)
       case DuplicateId(i, id) =>
         && HasRequired(corpus[i]) && corpus[i].id == Some(id)
         && exists j :: 0 <= j < i && corpus[j].id == Some(id)
  }

  // ---------------------------------------------------------------------------
  // The table as a value

  /** The PRIMARY KEY constraint. */
  predicate UniqueIds(rows: seq<Row>)
  {
    forall j, k :: 0 <= j < k < |rows| ==> rows[j].id != rows[k].id
  }

  /** Some row has this id. */
  predicate HasId(rows: seq<Row>, id: int)
  {
    exists k :: 0 <= k < |rows| && rows[k].id == id
  }

  /** Two rows hold the same quote (they may differ in usage). */
  predicate SameQuote(a: Row, b: Row)
  {
    && a.id == b.id && a.category == b.category && a.kind == b.kind
    && a.setup == b.setup && a.punchline == b.punchline && a.source == b.source
    && a.difficulty == b.difficulty && a.tags == b.tags
  }

  /** The category filter is on: Python treats None and "" as false. */
  predicate Filtering(category: Option<string>)
  {
    category.Some? && category.value != ""
  }

  /** The row passes the category and difficulty parts of the SELECT. */
  predicate Admits(category: Option<string>, maxDifficulty: int, r: Row)
  {
    (Filtering(category) ==> r.category == category.value) && r.difficulty <= maxDifficulty
  }

  /** The row is returned by the SELECT: unused and admitted by the filter. */
  predicate IsCandidate(category: Option<string>, maxDifficulty: int, r: Row)
  {
    r.usedCount == 0 && Admits(category, maxDifficulty, r)
  }

  /** The SELECT's result set, in the order `rows` holds them. */
  function Candidates(rows: seq<Row>, category: Option<string>, maxDifficulty: int): seq<Row>
  {
    if rows == [] then []
    else
      var last := rows[|rows| - 1];
      Candidates(rows[..|rows| - 1], category, maxDifficulty)
        + (if IsCandidate(category, maxDifficulty, last) then [last] else [])
  }

  /** A row is in the SELECT's result exactly when it is in the table and is a candidate. */
  lemma {:induction false} CandidatesMembers(rows: seq<Row>, category: Option<string>, maxDifficulty: int, r: Row)
    ensures r in Candidates(rows, category, maxDifficulty) <==> r in rows && IsCandidate(category, maxDifficulty, r)
  {
    if rows != [] {
      var init := rows[..|rows| - 1];
      CandidatesMembers(init, category, maxDifficulty, r);
      assert rows == init + [rows[|rows| - 1]];
    }
  }

  /** The table after `UPDATE ... SET used_count = used_count + 1, last_used = now WHERE id = id`. */
  function Marked(rows: seq<Row>, id: int, now: Stamp): seq<Row>
  {
    seq(|rows|, k requires 0 <= k < |rows| =>
      if rows[k].id == id then rows[k].(usedCount := rows[k].usedCount + 1, lastUsed := Some(now))
      else rows[k])
  }

  /** The table after `UPDATE quotes SET used_count = 0, last_used = NULL`. */
  function Cleared(rows: seq<Row>): seq<Row>
  {
    seq(|rows|, k requires 0 <= k < |rows| => rows[k].(usedCount := 0, lastUsed := None))
  }

  /** The rows that have been used at least once (the `used` statistic). */
  function UsedRows(rows: seq<Row>): (n: nat)
    ensures n <= |rows|
    ensures n == 0 <==> forall k :: 0 <= k < |rows| ==> rows[k].usedCount == 0
  {
    if rows == [] then 0
    else UsedRows(rows[..|rows| - 1]) + (if rows[|rows| - 1].usedCount > 0 then 1 else 0)
  }

  /** The number of rows in one category. */
  function CountCategory(rows: seq<Row>, category: string): nat
  {
    if rows == [] then 0
    else CountCategory(rows[..|rows| - 1], category) + (if rows[|rows| - 1].category == category then 1 else 0)
  }

  /** The `GROUP BY category` result, as the dictionary `get_stats` builds from it. */
  function CategoryCounts(rows: seq<Row>): map<string, nat>
  {
    if rows == [] then map[]
    else
      var m := CategoryCounts(rows[..|rows| - 1]);
      var c := rows[|rows| - 1].category;
      m[c := (if c in m then m[c] else 0) + 1]
  }

  /** The dictionary has one key per category in the table, mapped to that category's row count. */
  lemma {:induction false} CategoryCountsMeaning(rows: seq<Row>, c: string)
    ensures c in CategoryCounts(rows) <==> exists k :: 0 <= k < |rows| && rows[k].category == c
    ensures c in CategoryCounts(rows) ==> CategoryCounts(rows)[c] == CountCategory(rows, c) > 0
    ensures c !in CategoryCounts(rows) ==> CountCategory(rows, c) == 0
  {
    if rows != [] {
      var init := rows[..|rows| - 1];
      CategoryCountsMeaning(init, c);
      if exists k :: 0 <= k < |init| && init[k].category == c {
        var k :| 0 <= k < |init| && init[k].category == c;
        assert rows[k].category == c;
      }
    }
  }

  /** The sum of a dictionary's values. */
  ghost function SumValues(m: map<string, nat>): nat
    decreases |m|
  {
    if m == map[] then 0
    else
      var k :| k in m;
      assert |m - {k}| < |m| by { assert (m - {k}).Keys == m.Keys - {k}; }
      m[k] + SumValues(m - {k})
  }

  /** The sum may be taken starting from any key. */
  lemma {:induction false} SumValuesRemove(m: map<string, nat>, key: string)
    requires key in m
    ensures SumValues(m) == m[key] + SumValues(m - {key})
    decreases |m|
  {
    var k :| k in m && SumValues(m) == m[k] + SumValues(m - {k});
    if k != key {
      assert |m - {k}| < |m| by { assert (m - {k}).Keys == m.Keys - {k}; }
      assert |m - {key}| < |m| by { assert (m - {key}).Keys == m.Keys - {key}; }
      SumValuesRemove(m - {k}, key);
      SumValuesRemove(m - {key}, k);
      assert m - {k} - {key} == m - {key} - {k};
    }
  }

  /** Adding one to a count (or a new key with count one) adds one to the sum. */
  lemma SumValuesIncrement(m: map<string, nat>, c: string)
    ensures SumValues(m[c := (if c in m then m[c] else 0) + 1]) == SumValues(m) + 1
  {
    var m' := m[c := (if c in m then m[c] else 0) + 1];
    SumValuesRemove(m', c);
    if c in m {
      SumValuesRemove(m, c);
      assert m' - {c} == m - {c};
    } else {
      assert m' - {c} == m;
    }
  }

  /** The `by_category` counts add up to the number of rows. */
  lemma {:induction false} CategoryCountsTotal(rows: seq<Row>)
    ensures SumValues(CategoryCounts(rows)) == |rows|
  {
    if rows != [] {
      CategoryCountsTotal(rows[..|rows| - 1]);
      SumValuesIncrement(CategoryCounts(rows[..|rows| - 1]), rows[|rows| - 1].category);
    }
  }

  /** A cleared table has no used row, so `used == 0` and `unused == total`. */
  lemma ClearedUnused(rows: seq<Row>)
    ensures UsedRows(Cleared(rows)) == 0
  {
  }

  /** Resetting twice is resetting once. */
  lemma ClearedIdempotent(rows: seq<Row>)
    ensures Cleared(Cleared(rows)) == Cleared(rows)
  {
  }

  /** After a reset, the SELECT finds exactly the rows the filter admits. */
  lemma ClearedCandidates(rows: seq<Row>, category: Option<string>, maxDifficulty: int)
    ensures Candidates(Cleared(rows), category, maxDifficulty) == []
        <==> forall k :: 0 <= k < |rows| ==> !Admits(category, maxDifficulty, rows[k])
  {
    var cleared := Cleared(rows);
    if Candidates(cleared, category, maxDifficulty) == [] {
      forall k | 0 <= k < |rows| ensures !Admits(category, maxDifficulty, rows[k]) {
        CandidatesMembers(cleared, category, maxDifficulty, cleared[k]);
      }
    } else {
      var r := Candidates(cleared, category, maxDifficulty)[0];
      CandidatesMembers(cleared, category, maxDifficulty, r);
      var k :| 0 <= k < |cleared| && cleared[k] == r;
      assert Admits(category, maxDifficulty, rows[k]);
    }
  }

  /** The table after marking each id in `marks`, in order, with no reset in between. */
  function MarkAll(rows: seq<Row>, marks: seq<(int, Stamp)>): seq<Row>
  {
    if marks == [] then rows
    else
      var (id, now) := marks[|marks| - 1];
      Marked(MarkAll(rows, marks[..|marks| - 1]), id, now)
  }

  /**
   * No repeat until a reset: after any sequence of `mark_as_used` calls with
   * no reset in between, no id that was marked is among the SELECT's candidates.
   */
  lemma {:induction false} NoRepeatUntilReset(rows: seq<Row>, marks: seq<(int, Stamp)>,
                                              category: Option<string>, maxDifficulty: int, r: Row)
    requires r in Candidates(MarkAll(rows, marks), category, maxDifficulty)
    ensures forall j :: 0 <= j < |marks| ==> r.id != marks[j].0
    ensures |MarkAll(rows, marks)| == |rows|
  {
    CandidatesMembers(MarkAll(rows, marks), category, maxDifficulty, r);
    MarkedStaysUsed(rows, marks);
    var table := MarkAll(rows, marks);
    var k :| 0 <= k < |table| && table[k] == r;
    assert rows[k].id == r.id;
  }

  /** Marking keeps ids in place and every marked id's row used. */
  lemma {:induction false} MarkedStaysUsed(rows: seq<Row>, marks: seq<(int, Stamp)>)
    ensures |MarkAll(rows, marks)| == |rows|
    ensures forall k :: 0 <= k < |rows| ==> MarkAll(rows, marks)[k].id == rows[k].id
    ensures forall k, j :: 0 <= k < |rows| && 0 <= j < |marks| && rows[k].id == marks[j].0
              ==> MarkAll(rows, marks)[k].usedCount > 0
  {
    if marks != [] {
      var init := marks[..|marks| - 1];
      MarkedStaysUsed(rows, init);
      forall k, j | 0 <= k < |rows| && 0 <= j < |marks| && rows[k].id == marks[j].0
        ensures MarkAll(rows, marks)[k].usedCount > 0
      {
        if j < |marks| - 1 { assert init[j] == marks[j]; }
      }
    }
  }

  // ---------------------------------------------------------------------------
  // The store

  class MiriamDatabase {
    /** The `quotes` table, in insertion order. */
    var rows: seq<Row>

    ghost predicate Valid()
      reads this
    {
      UniqueIds(rows)
    }

    /**
     * `init_db`: `CREATE TABLE IF NOT EXISTS` keeps whatever table a previous
     * run left behind (empty on the first run).
     */
    constructor (persisted: seq<Row>)
      requires UniqueIds(persisted)
      ensures Valid() && rows == persisted
    {
      rows := persisted;
    }

    /**
     * `populate_db`: seeds an empty table from the corpus inside one
     * transaction; the first bad record rolls everything back. A table that
     * already has rows is left alone.
     */
    method Populate(corpus: seq<Record>) returns (outcome: Outcome<SeedError>)
      requires Valid()
      modifies this
      ensures Valid()
      ensures old(rows) != [] ==> outcome.Pass? && rows == old(rows)
      ensures old(rows) == [] ==> (outcome.Pass? <==> WellFormed(corpus))
      ensures old(rows) == [] && outcome.Pass? ==> WellFormed(corpus) && rows == SeedRows(corpus)
      ensures outcome.Fail? ==> rows == [] && Explains(corpus, outcome.error)
    {
      if rows != [] {
        return Pass;
      }
      var pending: seq<Row> := [];
      var i := 0;
      while i < |corpus|
        invariant 0 <= i <= |corpus|
        invariant rows == []
        invariant WellFormedUpTo(corpus, i)
        invariant |pending| == i
        invariant forall k :: 0 <= k < i ==> pending[k] == ToRow(corpus[k])
      {
        var rec := corpus[i];
        var missing := FirstMissingKey(rec);
        if missing.Some? {
          return Fail(MissingKey(i, missing.value));
        }
        var row := ToRow(rec);
        if HasId(pending, row.id) {
          ghost var j :| 0 <= j < |pending| && pending[j].id == row.id;
          assert corpus[j].id == Some(row.id);
          return Fail(DuplicateId(i, row.id));
        }
        pending := pending + [row];
        i := i + 1;
      }
      rows := pending;
      assert rows == SeedRows(corpus);
      return Pass;
    }

    /** The filtered SELECT: the unused rows the filter admits, in the order `rows` holds them. */
    method Query(category: Option<string>, maxDifficulty: int) returns (found: seq<Row>)
      ensures found == Candidates(rows, category, maxDifficulty)
      ensures forall r :: r in found <==> r in rows && IsCandidate(category, maxDifficulty, r)
    {
      found := [];
      var i := 0;
      while i < |rows|
        invariant 0 <= i <= |rows|
        invariant found == Candidates(rows[..i], category, maxDifficulty)
      {
        assert rows[..i + 1][..i] == rows[..i];
        if IsCandidate(category, maxDifficulty, rows[i]) {
          found := found + [rows[i]];
        }
        i := i + 1;
      }
      assert rows[..|rows|] == rows;
      forall r ensures r in found <==> r in rows && IsCandidate(category, maxDifficulty, r) {
        CandidatesMembers(rows, category, maxDifficulty, r);
      }
    }

    /**
     * `get_unused_quote`: some unused row the filter admits; when there is
     * none, every row's usage is reset and the same SELECT runs once more.
     */
    method GetUnusedQuote(category: Option<string>, maxDifficulty: int) returns (quote: Option<Row>)
      requires Valid()
      modifies this
      ensures Valid()
      ensures Candidates(old(rows), category, maxDifficulty) != [] ==> rows == old(rows)
      ensures Candidates(old(rows), category, maxDifficulty) == [] ==> rows == Cleared(old(rows))
      ensures quote.Some? ==> quote.value in rows && IsCandidate(category, maxDifficulty, quote.value)
      ensures quote.Some? && Candidates(old(rows), category, maxDifficulty) != [] ==> quote.value in old(rows)
      ensures quote.None? <==> forall k :: 0 <= k < |old(rows)| ==> !Admits(category, maxDifficulty, old(rows)[k])
    {
      var found := Query(category, maxDifficulty);
      if found == [] {
        ResetUsage();
        found := Query(category, maxDifficulty);
      }
      ClearedCandidates(old(rows), category, maxDifficulty);
      if found == [] {
        quote := None;
      } else {
        assert found[0] in found;
        var r :| r in found;
        quote := Some(r);
      }
    }

    /** `mark_as_used`: the row with this id (if any) gains one use and the stamp; nothing else changes. */
    method MarkAsUsed(id: int, now: Stamp)
      requires Valid()
      modifies this
      ensures Valid()
      ensures rows == Marked(old(rows), id, now)
      ensures |rows| == |old(rows)|
      ensures forall k :: 0 <= k < |rows| && old(rows)[k].id == id ==>
                SameQuote(rows[k], old(rows)[k])
                && rows[k].usedCount == old(rows)[k].usedCount + 1 && rows[k].lastUsed == Some(now)
      ensures forall k :: 0 <= k < |rows| && old(rows)[k].id != id ==> rows[k] == old(rows)[k]
      ensures !HasId(old(rows), id) ==> rows == old(rows)
      ensures forall j, k :: 0 <= j < k < |rows| && rows[j] != old(rows)[j] ==> rows[k] == old(rows)[k]
    {
      ghost var before := rows;
      var i := 0;
      while i < |rows|
        invariant 0 <= i <= |rows| == |before|
        invariant forall k :: 0 <= k < i ==> rows[k] == Marked(before, id, now)[k]
        invariant forall k :: i <= k < |rows| ==> rows[k] == before[k]
      {
        if rows[i].id == id {
          rows := rows[i := rows[i].(usedCount := rows[i].usedCount + 1, lastUsed := Some(now))];
        }
        i := i + 1;
      }
    }

    /** `reset_usage`: every row's `used_count` to 0 and `last_used` to NULL; nothing else changes. */
    method ResetUsage()
      requires Valid()
      modifies this
      ensures Valid()
      ensures rows == Cleared(old(rows))
      ensures |rows| == |old(rows)|
      ensures forall k :: 0 <= k < |rows| ==>
                SameQuote(rows[k], old(rows)[k]) && rows[k].usedCount == 0 && rows[k].lastUsed.None?
    {
      ghost var before := rows;
      var i := 0;
      while i < |rows|
        invariant 0 <= i <= |rows| == |before|
        invariant forall k :: 0 <= k < i ==> rows[k] == Cleared(before)[k]
        invariant forall k :: i <= k < |rows| ==> rows[k] == before[k]
      {
        rows := rows[i := rows[i].(usedCount := 0, lastUsed := None)];
        i := i + 1;
      }
    }

    /** `get_stats`: total, used (`used_count > 0`), unused and per-category counts. */
    method GetStats() returns (stats: Stats)
      ensures stats.total == |rows|
      ensures stats.used == UsedRows(rows) <= stats.total
      ensures stats.unused == stats.total - stats.used >= 0
      ensures stats.byCategory == CategoryCounts(rows)
      ensures SumValues(stats.byCategory) == stats.total
    {
      var used := 0;
      var byCategory: map<string, nat> := map[];
      var i := 0;
      while i < |rows|
        invariant 0 <= i <= |rows|
        invariant used == UsedRows(rows[..i])
        invariant byCategory == CategoryCounts(rows[..i])
      {
        assert rows[..i + 1][..i] == rows[..i];
        var r := rows[i];
        if r.usedCount > 0 {
          used := used + 1;
        }
        byCategory := byCategory[r.category := (if r.category in byCategory then byCategory[r.category] else 0) + 1];
        i := i + 1;
      }
      assert rows[..|rows|] == rows;
      CategoryCountsTotal(rows);
      stats := Stats(|rows|, used, |rows| - used, byCategory);
    }
  }

  // ---------------------------------------------------------------------------
  // Scenarios

  /** Opening a fresh table and seeding it twice leaves one row per record, or none if the corpus is bad. */
  method SeedTwice(corpus: seq<Record>) returns (count: nat)
    ensures WellFormed(corpus) ==> count == |corpus|
    ensures !WellFormed(corpus) ==> count == 0
  {
    var db := new MiriamDatabase([]);
    var first := db.Populate(corpus);
    var second := db.Populate(corpus);
    count := |db.rows|;
  }

  /** A quote as the corpus gives it, with only the keys the filter looks at besides the required ones. */
  function Quote(id: int, category: string, difficulty: int): Record
  {
    Record(Some(id), Some(category), Some("statement"), None, Some("punchline"), None, Some(difficulty), None)
  }

  /** When the filter admits a single row, that row is the only possible candidate. */
  lemma SoleAdmitted(rows: seq<Row>, category: Option<string>, maxDifficulty: int, k: nat)
    requires k < |rows|
    requires forall j :: 0 <= j < |rows| && j != k ==> !Admits(category, maxDifficulty, rows[j])
    ensures forall r :: r in Candidates(rows, category, maxDifficulty) ==> r == rows[k]
    ensures rows[k].usedCount > 0 ==> Candidates(rows, category, maxDifficulty) == []
  {
    forall r | r in Candidates(rows, category, maxDifficulty) ensures r == rows[k] {
      CandidatesMembers(rows, category, maxDifficulty, r);
    }
    if Candidates(rows, category, maxDifficulty) != [] {
      assert Candidates(rows, category, maxDifficulty)[0] in Candidates(rows, category, maxDifficulty);
      CandidatesMembers(rows, category, maxDifficulty, Candidates(rows, category, maxDifficulty)[0]);
    }
  }

  /** A fresh table seeded with quotes 1, 2 and 3: difficulties 3, 7 and 10, categories A, A and B. */
  method SeededStore() returns (db: MiriamDatabase)
    ensures fresh(db) && db.Valid() && |db.rows| == 3
    ensures forall j :: 0 <= j < 2 ==> db.rows[j].category == "A"
    ensures db.rows[2].id == 3 && db.rows[2].category == "B" && db.rows[2].difficulty == 10
    ensures db.rows[2].usedCount == 0
  {
    var corpus := [Quote(1, "A", 3), Quote(2, "A", 7), Quote(3, "B", 10)];
    assert WellFormed(corpus);
    db := new MiriamDatabase([]);
    var seeded := db.Populate(corpus);
    assert db.rows[2] == ToRow(corpus[2]);
    assert forall j :: 0 <= j < 2 ==> db.rows[j] == ToRow(corpus[j]);
  }

  /**
   * Three quotes of difficulties 3, 7 and 10 in categories A, A and B. The
   * only B quote is selected; once it is marked used, the next request for B
   * exhausts the pool, resets every row and selects it again.
   */
  method ExhaustionScenario() returns (first: Option<Row>, second: Option<Row>, usedAfter: nat)
    ensures first.Some? && first.value.id == 3
    ensures second.Some? && second.value.id == 3 && second.value.usedCount == 0
    ensures usedAfter == 0
  {
    var db := SeededStore();
    ghost var seededRows := db.rows;
    SoleAdmitted(seededRows, Some("B"), 10, 2);
    CandidatesMembers(seededRows, Some("B"), 10, seededRows[2]);
    first := db.GetUnusedQuote(Some("B"), 10);

    db.MarkAsUsed(3, 1);
    ghost var markedRows := db.rows;
    assert markedRows[2].usedCount == 1;
    assert forall j :: 0 <= j < 2 ==> markedRows[j].category == "A";
    SoleAdmitted(markedRows, Some("B"), 10, 2);
    second := db.GetUnusedQuote(Some("B"), 10);
    ghost var clearedRows := db.rows;
    assert forall j :: 0 <= j < 2 ==> clearedRows[j].category == "A";
    SoleAdmitted(clearedRows, Some("B"), 10, 2);
    CandidatesMembers(clearedRows, Some("B"), 10, second.value);
    ClearedUnused(markedRows);
    var stats := db.GetStats();
    usedAfter := stats.used;
  }
}
