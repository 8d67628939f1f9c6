/**
 * Loading one source's rows into the store (`insert_into_db`): rows that fail
 * to decode or validate are dropped, the rest are cut into chunks of 8192,
 * each chunk is transposed into six parallel columns and inserted with one
 * insert-or-ignore statement keyed on all six fields; the first failing
 * statement ends the load, and the chunks before it stay applied.
 */
module Loader {
  import opened Wrappers
  import opened Timestamps
  import opened Fields
  import opened Journeys

  /** The chunk size. */
  const LIMIT: nat := 8192

  // ---------------------------------------------------------------------------
  // Filtering

  /** Keep the values `f` yields, in order, and drop the elements it maps to `None` (`Iterator::filter_map`). */
  function FilterMap<A, B>(xs: seq<A>, f: A -> Option<B>): (r: seq<B>)
    ensures |r| <= |xs|
    ensures forall y :: y in r ==> exists x :: x in xs && f(x) == Some(y)
  {
    if xs == [] then []
    else
      var rest := FilterMap(xs[1..], f);
      match f(xs[0])
      case Some(y) => [y] + rest
      case None => rest
  }

  /** The journeys of the rows that decode and validate, in row order (the two `filter_map` stages). */
  function Accepted(rows: seq<Row>): (r: seq<Journey>)
    ensures |r| <= |rows|
    ensures forall j :: j in r ==> IsValid(j)
  {
    FilterMap(rows, Accept)
  }

  /** Filtering distributes over concatenation: what an element contributes does not depend on its neighbours. */
  lemma {:induction false} FilterMapAppend<A, B>(a: seq<A>, b: seq<A>, f: A -> Option<B>)
    ensures FilterMap(a + b, f) == FilterMap(a, f) + FilterMap(b, f)
  {
    if a == [] {
      assert a + b == b;
    } else {
      assert (a + b)[0] == a[0];
      assert (a + b)[1..] == a[1..] + b;
      FilterMapAppend(a[1..], b, f);
    }
  }

  /** A single element contributes its value if `f` yields one and nothing otherwise. */
  lemma FilterMapSingle<A, B>(x: A, f: A -> Option<B>)
    ensures FilterMap([x], f) == if f(x).Some? then [f(x).value] else []
  {
    assert [x][1..] == [];
  }

  /** Filtering distributes over concatenation of row sequences. */
  lemma AcceptedAppend(a: seq<Row>, b: seq<Row>)
    ensures Accepted(a + b) == Accepted(a) + Accepted(b)
  {
    FilterMapAppend(a, b, Accept);
  }

  /** A row that is dropped leaves the rows before and after it exactly as they would be without it. */
  lemma {:induction false} DroppedRowDoesNotStopLaterRows(rows: seq<Row>, i: nat)
    requires i < |rows| && Accept(rows[i]).None?
    ensures Accepted(rows) == Accepted(rows[..i]) + Accepted(rows[i + 1..])
  {
    assert rows == rows[..i] + ([rows[i]] + rows[i + 1..]);
    FilterMapAppend(rows[..i], [rows[i]] + rows[i + 1..], Accept);
    FilterMapAppend([rows[i]], rows[i + 1..], Accept);
    FilterMapSingle(rows[i], Accept);
  }

  /** The accepted journeys are exactly those of the rows that decode and validate. */
  lemma {:induction false} FilterMapMembers<A, B>(xs: seq<A>, f: A -> Option<B>, y: B)
    ensures y in FilterMap(xs, f) <==> exists i :: 0 <= i < |xs| && f(xs[i]) == Some(y)
  {
    if xs != [] {
      FilterMapMembers(xs[1..], f, y);
      if exists i :: 0 <= i < |xs| && f(xs[i]) == Some(y) {
        var i :| 0 <= i < |xs| && f(xs[i]) == Some(y);
        if i > 0 {
          assert xs[1..][i - 1] == xs[i];
        }
      }
      if y in FilterMap(xs[1..], f) {
        var i :| 0 <= i < |xs[1..]| && f(xs[1..][i]) == Some(y);
        assert xs[i + 1] == xs[1..][i];
      }
    }
  }

  /** A journey is accepted exactly when some row decodes to it and it validates. */
  lemma AcceptedMembers(rows: seq<Row>, j: Journey)
    ensures j in Accepted(rows) <==> exists i :: 0 <= i < |rows| && Decode(rows[i]) == Success(j) && IsValid(j)
  {
    FilterMapMembers(rows, Accept, j);
  }

  // ---------------------------------------------------------------------------
  // Chunking

  /** Consecutive chunks of `n` elements, the last one possibly shorter (`Itertools::chunks`). */
  function Chunks<T>(s: seq<T>, n: nat): (cs: seq<seq<T>>)
    requires n > 0
    ensures forall i :: 0 <= i < |cs| ==> 0 < |cs[i]| <= n
    ensures forall i :: 0 <= i < |cs| - 1 ==> |cs[i]| == n
    ensures s == [] <==> cs == []
    decreases |s|
  {
    if s == [] then []
    else if |s| <= n then [s]
    else [s[..n]] + Chunks(s[n..], n)
  }

  function Flatten<T>(cs: seq<seq<T>>): seq<T> {
    if cs == [] then [] else Flatten(cs[..|cs| - 1]) + cs[|cs| - 1]
  }

  lemma {:induction false} FlattenCons<T>(c: seq<T>, cs: seq<seq<T>>)
    ensures Flatten([c] + cs) == c + Flatten(cs)
    decreases |cs|
  {
    if cs != [] {
      assert ([c] + cs)[..|cs|] == [c] + cs[..|cs| - 1];
      FlattenCons(c, cs[..|cs| - 1]);
    }
  }

  lemma {:induction false} FlattenAppend<T>(a: seq<seq<T>>, b: seq<seq<T>>)
    ensures Flatten(a + b) == Flatten(a) + Flatten(b)
    decreases |b|
  {
    if b == [] {
      assert a + b == a;
    } else {
      var init, last := b[..|b| - 1], b[|b| - 1];
      assert (a + b)[..|a + b| - 1] == a + init;
      assert (a + b)[|a + b| - 1] == last;
      assert Flatten(b) == Flatten(init) + last;
      FlattenAppend(a, init);
    }
  }

  /** The chunks, put back together, are the sequence that was chunked. */
  lemma {:induction false} FlattenChunks<T>(s: seq<T>, n: nat)
    requires n > 0
    ensures Flatten(Chunks(s, n)) == s
    decreases |s|
  {
    if s == [] {
    } else if |s| <= n {
      assert Flatten([s]) == Flatten([]) + s;
    } else {
      FlattenChunks(s[n..], n);
      FlattenCons(s[..n], Chunks(s[n..], n));
      assert s == s[..n] + s[n..];
    }
  }

  /** 8193 accepted journeys make one full chunk and one chunk holding the last journey. */
  lemma {:induction false} ChunksOf8193<T>(s: seq<T>)
    requires |s| == 8193
    ensures Chunks(s, LIMIT) == [s[..8192], s[8192..]]
    ensures |Chunks(s, LIMIT)[0]| == 8192 && |Chunks(s, LIMIT)[1]| == 1
  {
    assert Chunks(s[8192..], LIMIT) == [s[8192..]];
  }

  // ---------------------------------------------------------------------------
  // Transposing

  /** Six parallel columns, one per field, as bound to the insert statement's six array parameters. */
  datatype Columns = Columns(
    departureTime: seq<Timestamp>,
    returnTime: seq<Timestamp>,
    departureStationId: seq<string>,
    returnStationId: seq<string>,
    distanceM: seq<real>,
    durationSec: seq<real>)
  {
    function Length(): nat {
      |departureTime|
    }

    predicate WellFormed() {
      && |returnTime| == Length() && |departureStationId| == Length() && |returnStationId| == Length()
      && |distanceM| == Length() && |durationSec| == Length()
    }
  }

  /** Turn a chunk of journeys into one column per field. */
  function Transpose(chunk: seq<Journey>): (c: Columns)
    ensures c.WellFormed() && c.Length() == |chunk|
  {
    Columns(
      seq(|chunk|, k requires 0 <= k < |chunk| => chunk[k].departureTime),
      seq(|chunk|, k requires 0 <= k < |chunk| => chunk[k].returnTime),
      seq(|chunk|, k requires 0 <= k < |chunk| => chunk[k].departureStationId),
      seq(|chunk|, k requires 0 <= k < |chunk| => chunk[k].returnStationId),
      seq(|chunk|, k requires 0 <= k < |chunk| => chunk[k].distanceM),
      seq(|chunk|, k requires 0 <= k < |chunk| => chunk[k].durationSec))
  }

  /** The store's `unnest` of the six arrays: row `k` is built from the `k`-th entry of every column. */
  function Unnest(c: Columns): (rows: seq<Journey>)
    requires c.WellFormed()
    ensures |rows| == c.Length()
  {
    seq(c.Length(), k requires 0 <= k < c.Length() =>
      Journey(c.departureTime[k], c.returnTime[k], c.departureStationId[k], c.returnStationId[k],
              c.distanceM[k], c.durationSec[k]))
  }

  /** Unnesting the transposed chunk gives the chunk back, row for row. */
  lemma UnnestTranspose(chunk: seq<Journey>)
    ensures Unnest(Transpose(chunk)) == chunk
  {
  }

  /** Transposing unnested columns gives the columns back. */
  lemma TransposeUnnest(c: Columns)
    requires c.WellFormed()
    ensures Transpose(Unnest(c)) == c
  {
  }

  // ---------------------------------------------------------------------------
  // The store

  function Elems<T>(s: seq<T>): set<T> {
    set x | x in s
  }

  lemma ElemsAppend<T>(a: seq<T>, b: seq<T>)
    ensures Elems(a + b) == Elems(a) + Elems(b)
  {
  }

  /** One more chunk applied adds that chunk's journeys. */
  lemma AppliedOneMore<T>(chunks: seq<seq<T>>, i: nat)
    requires i < |chunks|
    ensures Elems(Flatten(chunks[..i + 1])) == Elems(Flatten(chunks[..i])) + Elems(chunks[i])
  {
    assert chunks[..i + 1][..i] == chunks[..i];
    ElemsAppend(Flatten(chunks[..i]), chunks[i]);
  }

  datatype StoreError = StatementFailed

  /**
   * The `journeys` table, seen through its uniqueness constraint `u_stats`
   * over the six data columns: the set of keys it holds.
   */
  class Store {
    var rows: set<Journey>

    constructor ()
      ensures rows == {}
    {
      rows := {};
    }

    /**
     * One `insert ... select * from unnest(...) on conflict on constraint
     * u_stats do nothing`: either the statement fails and changes nothing, or
     * every unnested row whose key is new is added and the others are skipped.
     */
    method InsertOrIgnore(c: Columns, fails: bool) returns (r: Outcome<StoreError>)
      requires c.WellFormed()
      modifies this
      ensures r.Pass? <==> !fails
      ensures rows == if fails then old(rows) else old(rows) + Elems(Unnest(c))
    {
      if fails {
        return Fail(StatementFailed);
      }
      rows := rows + Elems(Unnest(c));
      return Pass;
    }
  }

  /** What the store holds after a complete load of `body` into a store holding `before`. */
  function Loaded(before: set<Journey>, body: seq<Row>): set<Journey> {
    before + Elems(Accepted(body))
  }

  /** How many of `n` statements run before the first one in `faults` fails. */
  function Applied(n: nat, faults: set<nat>): (k: nat)
    ensures k <= n
    ensures forall i :: 0 <= i < k ==> i !in faults
    ensures k < n ==> k in faults
  {
    if n == 0 then 0
    else
      var k := Applied(n - 1, faults);
      if k < n - 1 then k else if n - 1 in faults then n - 1 else n
  }

  /**
   * The statement loop of `insert_into_db`: chunk `i` becomes one
   * insert-or-ignore statement, which fails exactly when `i` is in `faults`
   * (the store's failures are not otherwise modelled); the first failure ends
   * the loop with that error.
   */
  method InsertChunks(chunks: seq<seq<Journey>>, store: Store, faults: set<nat>) returns (r: Outcome<StoreError>)
    modifies store
    ensures var applied := Applied(|chunks|, faults);
            && (r.Pass? <==> applied == |chunks|)
            && store.rows == old(store.rows) + Elems(Flatten(chunks[..applied]))
  {
    var i := 0;
    while i < |chunks|
      invariant i <= |chunks|
      invariant forall k :: 0 <= k < i ==> k !in faults
      invariant store.rows == old(store.rows) + Elems(Flatten(chunks[..i]))
    {
      var columns := Transpose(chunks[i]);
      UnnestTranspose(chunks[i]);
      r := store.InsertOrIgnore(columns, i in faults);
      if r.Fail? {
        return;
      }
      AppliedOneMore(chunks, i);
      i := i + 1;
    }
    assert chunks[..i] == chunks;
    r := Pass;
  }

  /**
   * `insert_into_db` on already-parsed rows: the accepted journeys, in
   * statements of at most `LIMIT` rows each.
   */
  method InsertIntoDb(body: seq<Row>, store: Store, faults: set<nat>) returns (r: Outcome<StoreError>)
    modifies store
    ensures var chunks := Chunks(Accepted(body), LIMIT);
            var applied := Applied(|chunks|, faults);
            && (r.Pass? <==> applied == |chunks|)
            && store.rows == old(store.rows) + Elems(Flatten(chunks[..applied]))
    ensures r.Pass? ==> store.rows == Loaded(old(store.rows), body)
  {
    var accepted := Accepted(body);
    var chunks := Chunks(accepted, LIMIT);
    r := InsertChunks(chunks, store, faults);
    FlattenChunks(accepted, LIMIT);
    assert r.Pass? ==> chunks[..|chunks|] == chunks;
  }

  // ---------------------------------------------------------------------------
  // Idempotence

  /** Loading the same rows a second time leaves the store as the first load left it. */
  lemma ReloadIsIdempotent(before: set<Journey>, body: seq<Row>)
    ensures Loaded(Loaded(before, body), body) == Loaded(before, body)
  {
  }

  /** Without store failures the load always completes. */
  lemma {:induction false} LoadWithoutFaultsCompletes(n: nat)
    ensures Applied(n, {}) == n
  {
  }

  /**
   * After a load that stopped at any chunk, a complete reload ends in the same
   * store as a single complete load: what was applied is a part of what a
   * complete load adds.
   */
  lemma {:induction false} ReloadAfterFailure(before: set<Journey>, body: seq<Row>, k: nat)
    requires k <= |Chunks(Accepted(body), LIMIT)|
    ensures Loaded(before + Elems(Flatten(Chunks(Accepted(body), LIMIT)[..k])), body) == Loaded(before, body)
  {
    ChunkPrefixIncluded(Accepted(body), LIMIT, k);
  }

  /** The rows of the first `k` chunks are rows of the chunked sequence. */
  lemma {:induction false} ChunkPrefixIncluded<T>(s: seq<T>, n: nat, k: nat)
    requires n > 0 && k <= |Chunks(s, n)|
    ensures Elems(Flatten(Chunks(s, n)[..k])) <= Elems(s)
  {
    var chunks := Chunks(s, n);
    assert chunks == chunks[..k] + chunks[k..];
    FlattenAppend(chunks[..k], chunks[k..]);
    FlattenChunks(s, n);
    ElemsAppend(Flatten(chunks[..k]), Flatten(chunks[k..]));
  }

  /** A store holding distinct journeys gains one row per journey: nothing is lost to deduplication. */
  lemma {:induction false} DistinctElemsCount<T>(s: seq<T>)
    requires forall i, j :: 0 <= i < j < |s| ==> s[i] != s[j]
    ensures |Elems(s)| == |s|
  {
    if s != [] {
      var init := s[..|s| - 1];
      DistinctElemsCount(init);
      assert Elems(s) == Elems(init) + {s[|s| - 1]};
      assert s[|s| - 1] !in Elems(init);
    }
  }
}
