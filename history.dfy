/** The search history (static/script.js:32-56): a most-recent-first list of
    trimmed queries kept in `localStorage` under `searchHistory`, with no
    duplicates and at most `MAX_HISTORY` entries. Storage is modelled as the
    already-decoded values its keys hold. */
module History {
  import opened Text

  /** `MAX_HISTORY` */
  const MaxHistory: nat := 10

  /** The `localStorage` key of the history. */
  const HistoryKey: string := "searchHistory"

  /** What `JSON.parse` makes of the text stored under a key. */
  datatype Stored = JsonArray(items: seq<string>) | Unparseable

  /** `localStorage`: a key absent from the map has no item. */
  type Storage = map<string, Stored>

  /** No entry occurs twice. */
  ghost predicate NoDuplicates(h: seq<string>) {
    forall i, j :: 0 <= i < j < |h| ==> h[i] != h[j]
  }

  /** `getSearchHistory()`: the stored list, or the empty list when the key is
      missing or its text does not parse. */
  function ReadHistory(storage: Storage): (h: seq<string>)
    ensures HistoryKey !in storage ==> h == []
    ensures HistoryKey in storage && storage[HistoryKey] == Unparseable ==> h == []
  {
    if HistoryKey in storage && storage[HistoryKey].JsonArray? then storage[HistoryKey].items else []
  }

  /** `history.filter(h => h !== q)`: the entries other than `q`, in order. */
  function Without(h: seq<string>, q: string): (r: seq<string>)
    ensures |r| <= |h|
    ensures forall x :: x in r <==> x in h && x != q
  {
    if h == [] then [] else (if h[0] == q then [] else [h[0]]) + Without(h[1..], q)
  }

  /** Filtering distributes over concatenation; with `Without([x], q)` this
      pins `Without` down as the order-preserving filter. */
  lemma {:induction false} WithoutAppend(h1: seq<string>, h2: seq<string>, q: string)
    ensures Without(h1 + h2, q) == Without(h1, q) + Without(h2, q)
  {
    if h1 != [] {
      assert (h1 + h2)[1..] == h1[1..] + h2;
      WithoutAppend(h1[1..], h2, q);
    } else {
      assert h1 + h2 == h2;
    }
  }

  /** A list without `q` is left as it is. */
  lemma {:induction false} WithoutAbsent(h: seq<string>, q: string)
    requires q !in h
    ensures Without(h, q) == h
  {
    if h != [] {
      assert q !in h[1..];
      WithoutAbsent(h[1..], q);
      assert [h[0]] + h[1..] == h;
    }
  }

  /** Filtering keeps a duplicate-free list duplicate-free. */
  lemma {:induction false} WithoutKeepsNoDuplicates(h: seq<string>, q: string)
    requires NoDuplicates(h)
    ensures NoDuplicates(Without(h, q))
  {
    if h != [] {
      assert NoDuplicates(h[1..]) by {
        forall i, j | 0 <= i < j < |h| - 1 ensures h[1..][i] != h[1..][j] {
          assert h[1..][i] == h[i + 1] && h[1..][j] == h[j + 1];
        }
      }
      WithoutKeepsNoDuplicates(h[1..], q);
      var rest := Without(h[1..], q);
      assert h[0] !in h[1..];
      assert h[0] !in rest;
    }
  }

  /** The list after `saveSearchHistory` recorded the trimmed query `q`: other
      copies of `q` are filtered out, `q` is put in front (`unshift`) and the
      list is cut to `MaxHistory` entries (`slice`). */
  function Promote(h: seq<string>, q: string): (r: seq<string>)
    ensures 1 <= |r| <= MaxHistory && r[0] == q
  {
    var list := [q] + Without(h, q);
    if |list| > MaxHistory then list[..MaxHistory] else list
  }

  /** The promoted list is `q` followed by as many of the older entries other
      than `q` as fit, in their previous order; so `q` occurs once, and every
      other entry was in the history. */
  lemma PromoteShape(h: seq<string>, q: string)
    ensures var r := Promote(h, q);
      && |r| == (if |Without(h, q)| < MaxHistory then |Without(h, q)| + 1 else MaxHistory)
      && r[1..] == Without(h, q)[..|r| - 1]
      && (forall i :: 1 <= i < |r| ==> r[i] != q)
      && (forall x :: x in r ==> x == q || x in h)
  {
    var r := Promote(h, q);
    var w := Without(h, q);
    assert r[1..] == w[..|r| - 1];
    forall i | 1 <= i < |r| ensures r[i] != q && r[i] in h {
      assert r[i] == w[i - 1] && w[i - 1] in w;
    }
  }

  /** A duplicate-free history stays duplicate-free. */
  lemma PromoteKeepsNoDuplicates(h: seq<string>, q: string)
    requires NoDuplicates(h)
    ensures NoDuplicates(Promote(h, q))
  {
    var r := Promote(h, q);
    var w := Without(h, q);
    PromoteShape(h, q);
    WithoutKeepsNoDuplicates(h, q);
    forall i, j | 0 <= i < j < |r| ensures r[i] != r[j] {
      if i > 0 {
        assert r[i] == r[1..][i - 1] == w[i - 1];
        assert r[j] == r[1..][j - 1] == w[j - 1];
      }
    }
  }

  /** Recording the same query twice in a row is recording it once. */
  lemma PromoteIdempotent(h: seq<string>, q: string)
    ensures Promote(Promote(h, q), q) == Promote(h, q)
  {
    var r := Promote(h, q);
    PromoteShape(h, q);
    var tail := r[1..];
    assert r == [q] + tail;
    assert q !in tail by {
      forall i | 0 <= i < |tail| ensures tail[i] != q { assert tail[i] == r[i + 1]; }
    }
    WithoutAbsent(tail, q);
    WithoutAppend([q], tail, q);
    assert Without([q], q) == [] by { assert [q][1..] == []; }
    assert Without(r, q) == tail;
  }

  /** `saveSearchHistory(query)` as a change to storage: a blank query changes
      nothing; otherwise the history key is set to the promoted list. */
  function Saved(storage: Storage, query: string): (r: Storage)
    ensures forall k :: k != HistoryKey ==> (k in r <==> k in storage)
    ensures forall k :: k != HistoryKey && k in storage ==> r[k] == storage[k]
  {
    var q := Trim(query);
    if |q| == 0 then storage
    else storage[HistoryKey := JsonArray(Promote(ReadHistory(storage), q))]
  }

  /** `clearSearchHistory()`: the history key is removed. */
  function Cleared(storage: Storage): (r: Storage)
    ensures HistoryKey !in r
    ensures forall k :: k != HistoryKey ==> (k in r <==> k in storage)
    ensures forall k :: k != HistoryKey && k in storage ==> r[k] == storage[k]
  {
    storage - {HistoryKey}
  }

  /** After clearing, the history reads as empty. */
  lemma ClearedReadsEmpty(storage: Storage)
    ensures ReadHistory(Cleared(storage)) == []
  {
  }

  /** A query that is empty or all whitespace leaves storage as it was. */
  lemma SaveBlankIsNoOp(storage: Storage, query: string)
    requires AllSpace(query)
    ensures Saved(storage, query) == storage
  {
    TrimEmptyIffAllSpace(query);
  }

  /** Any other query ends up in front, exactly once, in a list of at most
      `MaxHistory` entries, followed by the older entries other than it in
      their previous order; a duplicate-free history stays duplicate-free. */
  lemma SaveRecordsQuery(storage: Storage, query: string)
    requires !AllSpace(query)
    ensures var h := ReadHistory(Saved(storage, query));
      && |h| >= 1 && h[0] == Trim(query)
      && (forall i :: 1 <= i < |h| ==> h[i] != Trim(query))
      && |h| <= MaxHistory
      && |h| == (if |Without(ReadHistory(storage), Trim(query))| < MaxHistory
                 then |Without(ReadHistory(storage), Trim(query))| + 1 else MaxHistory)
      && h[1..] == Without(ReadHistory(storage), Trim(query))[..|h| - 1]
      && (NoDuplicates(ReadHistory(storage)) ==> NoDuplicates(h))
  {
    TrimEmptyIffAllSpace(query);
    PromoteShape(ReadHistory(storage), Trim(query));
    if NoDuplicates(ReadHistory(storage)) {
      PromoteKeepsNoDuplicates(ReadHistory(storage), Trim(query));
    }
  }

  /** Saving the same query twice in a row is saving it once. */
  lemma SaveIdempotent(storage: Storage, query: string)
    ensures Saved(Saved(storage, query), query) == Saved(storage, query)
  {
    var q := Trim(query);
    if |q| != 0 {
      var h := Promote(ReadHistory(storage), q);
      var once := storage[HistoryKey := JsonArray(h)];
      assert ReadHistory(once) == h;
      PromoteIdempotent(ReadHistory(storage), q);
      assert once[HistoryKey := JsonArray(h)] == once;
    }
  }

  /** The submit handler trims before saving and saving trims again: saving
      the trimmed value is saving the value. */
  lemma SaveOfTrimmed(storage: Storage, query: string)
    ensures Saved(storage, Trim(query)) == Saved(storage, query)
  {
    TrimIdempotent(query);
  }

  /** Saving a query that is already trimmed and non-empty. */
  lemma SaveTrimmed(storage: Storage, q: string)
    requires q != [] && !IsSpace(q[0]) && !IsSpace(q[|q| - 1])
    ensures ReadHistory(Saved(storage, q)) == Promote(ReadHistory(storage), q)
  {
    TrimOfTrimmed(q);
  }

  /** Submitting "foo", "bar", then "foo" leaves `["foo", "bar"]`. */
  lemma FooBarFoo()
    ensures ReadHistory(Saved(Saved(Saved(map[], "foo"), "bar"), "foo")) == ["foo", "bar"]
  {
    var s1 := Saved(map[], "foo");
    var s2 := Saved(s1, "bar");
    SubmitFirstFoo();
    SubmitBarAfterFoo(s1);
    SubmitFooAfterBarFoo(s2);
  }

  lemma SubmitFirstFoo()
    ensures ReadHistory(Saved(map[], "foo")) == ["foo"]
  {
    SaveTrimmed(map[], "foo");
    assert Without([], "foo") == [];
  }

  lemma SubmitBarAfterFoo(s: Storage)
    requires ReadHistory(s) == ["foo"]
    ensures ReadHistory(Saved(s, "bar")) == ["bar", "foo"]
  {
    SaveTrimmed(s, "bar");
    assert "foo" != "bar" by { assert "foo"[0] != "bar"[0]; }
    assert Without(["foo"], "bar") == ["foo"] by { assert ["foo"][1..] == []; }
  }

  lemma SubmitFooAfterBarFoo(s: Storage)
    requires ReadHistory(s) == ["bar", "foo"]
    ensures ReadHistory(Saved(s, "foo")) == ["foo", "bar"]
  {
    SaveTrimmed(s, "foo");
    var h: seq<string> := ["bar", "foo"];
    assert "bar" != "foo" by { assert "bar"[0] != "foo"[0]; }
    assert h[1..] == ["foo"] && ["foo"][1..] == [];
    assert Without(["foo"], "foo") == [];
    assert Without(h, "foo") == ["bar"];
  }
}
