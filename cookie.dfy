/** `getCookie(name)` (static/script.js:5-8): the first match in `document.cookie`
    of the pattern `(^|;)\s*NAME\s*=\s*([^;]+)`, with the captured group as the
    value. The scanner below follows the way a backtracking matcher resolves that
    pattern (leftmost start, then each quantifier as greedy as the rest allows);
    `Fits` and `EntryFits` state the pattern's language independently, and the
    lemmas tie the two together. URI decoding of the value is not modelled. */
module Cookie {
  import opened Wrappers
  import opened Text

  predicate IsNameChar(c: char) {
    ('a' <= c <= 'z') || ('A' <= c <= 'Z') || ('0' <= c <= '9') || c == '_'
  }

  /** A cookie name that the pattern, into which it is spliced, matches literally. */
  predicate IsPlainName(name: string) {
    name != [] && forall k :: 0 <= k < |name| ==> IsNameChar(name[k])
  }

  /** No character of `s` in [i, j) is `;`. */
  predicate NoSemi(s: string, i: int, j: int)
    requires 0 <= i <= j <= |s|
  {
    forall k :: i <= k < j ==> s[k] != ';'
  }

  /** Half-open range [start, end) of `s`. */
  datatype Span = Span(start: nat, end: nat)

  /** End of the longest run of non-`;` characters starting at `i` (`[^;]*`). */
  function RunEnd(s: string, i: nat): (j: nat)
    requires i <= |s|
    ensures i <= j <= |s| && NoSemi(s, i, j)
    ensures j == |s| || s[j] == ';'
    decreases |s| - i
  {
    if i < |s| && s[i] != ';' then RunEnd(s, i + 1) else i
  }

  /** The text of `s` from `p` matches `\s*NAME\s*=\s*([^;]+)`, with the name at
      `a`, the `=` at `b` and the captured group at [d, e). */
  ghost predicate Fits(s: string, name: string, p: int, a: int, b: int, d: int, e: int) {
    && 0 <= p <= a && a + |name| <= b && b < d < e <= |s|
    && Blank(s, p, a) && s[a..a + |name|] == name && Blank(s, a + |name|, b)
    && s[b] == '=' && Blank(s, b + 1, d) && NoSemi(s, d, e)
  }

  /** The whole pattern matches with its match starting at `i`: either at the
      start of the string (`^`) or at a `;`. */
  ghost predicate EntryFits(s: string, name: string, i: int, a: int, b: int, d: int, e: int) {
    || (i == 0 && Fits(s, name, 0, a, b, d, e))
    || (0 <= i < |s| && s[i] == ';' && Fits(s, name, i + 1, a, b, d, e))
  }

  /** The pattern after `(^|;)`, tried at index `p`: the span of the group. */
  function ValueAt(s: string, name: string, p: nat): (r: Option<Span>)
    requires p <= |s|
    ensures r.Some? ==> p < r.value.start < r.value.end <= |s|
  {
    var a := SkipSpaces(s, p);
    if a + |name| <= |s| && s[a..a + |name|] == name then
      var b := SkipSpaces(s, a + |name|);
      if b < |s| && s[b] == '=' then
        var d := SkipSpaces(s, b + 1);
        if d < |s| && s[d] != ';' then Some(Span(d, RunEnd(s, d)))
        else if d > b + 1 then Some(Span(d - 1, RunEnd(s, d - 1)))
        else None
      else None
    else None
  }

  /** The whole pattern tried with its match starting at index `i`; at index 0
      the `^` alternative is tried before the `;` one. */
  function MatchAt(s: string, name: string, i: nat): (r: Option<Span>)
    requires i <= |s|
    ensures r.Some? ==> r.value.start < r.value.end <= |s|
  {
    if i == 0 && ValueAt(s, name, 0).Some? then ValueAt(s, name, 0)
    else if i < |s| && s[i] == ';' then ValueAt(s, name, i + 1)
    else None
  }

  /** The first match whose start is at index `i` or later. */
  function Search(s: string, name: string, i: nat): (r: Option<Span>)
    requires i <= |s|
    ensures r.Some? ==> r.value.start < r.value.end <= |s|
    decreases |s| - i
  {
    match MatchAt(s, name, i)
    case Some(sp) => Some(sp)
    case None => if i == |s| then None else Search(s, name, i + 1)
  }

  /** `getCookie(name)`, without the URI decoding of the value: `None` stands
      for `null`. */
  function GetCookie(s: string, name: string): (r: Option<string>)
    ensures r.Some? ==> r.value != [] && ';' !in r.value
  {
    match Search(s, name, 0)
    case None => None
    case Some(sp) =>
      assert NoSemi(s, sp.start, sp.end) by { SearchFits(s, name, 0); }
      Some(s[sp.start..sp.end])
  }

  /** What a span the scanner returns is: a group of some match of the pattern. */
  lemma ValueAtSound(s: string, name: string, p: nat) returns (a: int, b: int)
    requires p <= |s| && ValueAt(s, name, p).Some?
    ensures Fits(s, name, p, a, b, ValueAt(s, name, p).value.start, ValueAt(s, name, p).value.end)
  {
    a := SkipSpaces(s, p);
    b := SkipSpaces(s, a + |name|);
  }

  lemma NameCharNotSpace(c: char)
    requires IsNameChar(c)
    ensures !IsSpace(c) && c != ';' && c != '='
  {
  }

  /** Whenever the pattern can match from `p`, the scanner finds a match, and its
      group starts and ends as late as any match's group does: the greedy
      choice a backtracking matcher makes. */
  lemma ValueAtComplete(s: string, name: string, p: nat, a: int, b: int, d: int, e: int)
    requires IsPlainName(name) && p <= |s|
    requires Fits(s, name, p, a, b, d, e)
    ensures ValueAt(s, name, p).Some?
    ensures d <= ValueAt(s, name, p).value.start && e <= ValueAt(s, name, p).value.end
  {
    var a' := SkipSpaces(s, p);
    assert s[a] == name[0] by { assert s[a..a + |name|][0] == s[a]; }
    NameCharNotSpace(name[0]);
    assert a == a';
    var b' := SkipSpaces(s, a + |name|);
    assert b == b';
    var d' := SkipSpaces(s, b + 1);
    var sp := ValueAt(s, name, p).value;
    assert sp.start >= d;
  }

  /** A match found at index `i` is a match of the whole pattern there. */
  lemma MatchAtSound(s: string, name: string, i: nat) returns (a: int, b: int)
    requires i <= |s| && MatchAt(s, name, i).Some?
    ensures EntryFits(s, name, i, a, b, MatchAt(s, name, i).value.start, MatchAt(s, name, i).value.end)
  {
    if i == 0 && ValueAt(s, name, 0).Some? {
      a, b := ValueAtSound(s, name, 0);
    } else {
      a, b := ValueAtSound(s, name, i + 1);
    }
  }

  /** A cookie string that starts with `;` has no match at its start. */
  lemma SemiStartsNoValue(s: string, name: string)
    requires IsPlainName(name) && s != [] && s[0] == ';'
    ensures ValueAt(s, name, 0).None?
  {
    NameCharNotSpace(name[0]);
    assert SkipSpaces(s, 0) == 0;
    if |name| <= |s| {
      assert s[0..|name|][0] == s[0];
    }
  }

  /** A match of the `^` alternative is found by the scanner at index 0. */
  lemma MatchAtCompleteStart(s: string, name: string, a: int, b: int, d: int, e: int)
    requires IsPlainName(name) && Fits(s, name, 0, a, b, d, e)
    ensures MatchAt(s, name, 0).Some?
    ensures d <= MatchAt(s, name, 0).value.start && e <= MatchAt(s, name, 0).value.end
  {
    ValueAtComplete(s, name, 0, a, b, d, e);
  }

  /** A match of the `;` alternative is found by the scanner at the `;`, also
      at index 0, where the `^` alternative cannot match. */
  lemma MatchAtCompleteSemi(s: string, name: string, i: nat, a: int, b: int, d: int, e: int)
    requires IsPlainName(name) && i < |s| && s[i] == ';' && Fits(s, name, i + 1, a, b, d, e)
    ensures MatchAt(s, name, i).Some?
    ensures d <= MatchAt(s, name, i).value.start && e <= MatchAt(s, name, i).value.end
  {
    ValueAtComplete(s, name, i + 1, a, b, d, e);
    if i == 0 {
      SemiStartsNoValue(s, name);
      assert MatchAt(s, name, 0) == ValueAt(s, name, 1);
    }
  }

  /** The scanner finds a match at index `i` whenever the pattern matches
      there, and its group is the greedy one. */
  lemma MatchAtComplete(s: string, name: string, i: nat, a: int, b: int, d: int, e: int)
    requires IsPlainName(name) && i <= |s|
    requires EntryFits(s, name, i, a, b, d, e)
    ensures MatchAt(s, name, i).Some?
    ensures d <= MatchAt(s, name, i).value.start && e <= MatchAt(s, name, i).value.end
  {
    if i == 0 && Fits(s, name, 0, a, b, d, e) {
      MatchAtCompleteStart(s, name, a, b, d, e);
    } else {
      MatchAtCompleteSemi(s, name, i, a, b, d, e);
    }
  }

  /** No index in [i, j) has a match. */
  ghost predicate NoMatchBetween(s: string, name: string, i: int, j: int)
    requires 0 <= i && j <= |s| + 1
  {
    forall k :: i <= k < j ==> MatchAt(s, name, k).None?
  }

  /** One step of `Search` past an index without a match. */
  lemma SearchSkips(s: string, name: string, i: nat)
    requires i < |s| && MatchAt(s, name, i).None?
    ensures Search(s, name, i) == Search(s, name, i + 1)
  {
  }

  /** An index without a match extends a stretch without matches to its left. */
  lemma NoMatchExtends(s: string, name: string, i: nat, j: int)
    requires i < j <= |s| + 1 && MatchAt(s, name, i).None? && NoMatchBetween(s, name, i + 1, j)
    ensures NoMatchBetween(s, name, i, j)
  {
    forall k | i <= k < j ensures MatchAt(s, name, k).None? {
      if k > i { assert i + 1 <= k < j; }
    }
  }

  /** `Search` finds nothing only when no index from `i` on has a match. */
  lemma {:induction false} SearchNone(s: string, name: string, i: nat)
    requires i <= |s| && Search(s, name, i).None?
    ensures NoMatchBetween(s, name, i, |s| + 1)
    decreases |s| - i
  {
    assert MatchAt(s, name, i).None?;
    if i < |s| {
      SearchSkips(s, name, i);
      SearchNone(s, name, i + 1);
      NoMatchExtends(s, name, i, |s| + 1);
    }
  }

  /** Conversely, `Search` finds nothing when no index from `i` on has a match. */
  lemma {:induction false} NoMatchSearchNone(s: string, name: string, i: nat)
    requires i <= |s| && NoMatchBetween(s, name, i, |s| + 1)
    ensures Search(s, name, i).None?
    decreases |s| - i
  {
    assert MatchAt(s, name, i).None?;
    if i < |s| {
      assert NoMatchBetween(s, name, i + 1, |s| + 1);
      NoMatchSearchNone(s, name, i + 1);
      SearchSkips(s, name, i);
    }
  }

  /** `Search` returns the match at the least index from `i` on that has one. */
  lemma {:induction false} SearchSome(s: string, name: string, i: nat) returns (j: nat)
    requires i <= |s| && Search(s, name, i).Some?
    ensures i <= j <= |s| && MatchAt(s, name, j) == Search(s, name, i)
    ensures NoMatchBetween(s, name, i, j)
    decreases |s| - i
  {
    if MatchAt(s, name, i).Some? {
      j := i;
    } else {
      SearchSkips(s, name, i);
      j := SearchSome(s, name, i + 1);
      NoMatchExtends(s, name, i, j);
    }
  }

  /** A span `Search` returns is the group of a match of the pattern. */
  lemma SearchFits(s: string, name: string, i: nat)
    requires i <= |s| && Search(s, name, i).Some?
    ensures NoSemi(s, Search(s, name, i).value.start, Search(s, name, i).value.end)
  {
    var j := SearchSome(s, name, i);
    var a, b := MatchAtSound(s, name, j);
  }

  /** `getCookie` returns `null` exactly when no entry of the cookie string
      matches; otherwise it returns the greedy group of the FIRST matching entry. */
  lemma GetCookieFindsFirstEntry(s: string, name: string)
    requires IsPlainName(name)
    ensures GetCookie(s, name).None? <==> forall i, a, b, d, e :: !EntryFits(s, name, i, a, b, d, e)
    ensures GetCookie(s, name).Some? ==>
      exists i, a, b, d, e ::
        && EntryFits(s, name, i, a, b, d, e)
        && GetCookie(s, name).value == s[d..e]
        && (forall a', b', d', e' :: EntryFits(s, name, i, a', b', d', e') ==> d' <= d && e' <= e)
        && (forall j, a', b', d', e' :: j < i ==> !EntryFits(s, name, j, a', b', d', e'))
  {
    if Search(s, name, 0).None? {
      SearchNone(s, name, 0);
      forall i, a, b, d, e ensures !EntryFits(s, name, i, a, b, d, e) {
        if EntryFits(s, name, i, a, b, d, e) {
          assert 0 <= i <= |s|;
          MatchAtComplete(s, name, i, a, b, d, e);
          assert false;
        }
      }
    } else {
      var sp := Search(s, name, 0).value;
      var i := SearchSome(s, name, 0);
      var a, b := MatchAtSound(s, name, i);
      forall a', b', d', e' | EntryFits(s, name, i, a', b', d', e') ensures d' <= sp.start && e' <= sp.end {
        MatchAtComplete(s, name, i, a', b', d', e');
      }
      forall j, a', b', d', e' | j < i ensures !EntryFits(s, name, j, a', b', d', e') {
        if EntryFits(s, name, j, a', b', d', e') {
          MatchAtComplete(s, name, j, a', b', d', e');
          assert false;
        }
      }
      assert EntryFits(s, name, i, a, b, sp.start, sp.end);
    }
  }

  /** The `name=value` pair that `setCookie` stores, as `document.cookie` later
      reports it (attributes such as `expires` and `path` are not reported). */
  function CookiePair(name: string, value: string): string {
    name + "=" + value
  }

  /** Round trip: a stored pair whose value starts with a non-space character
      and holds no `;` is read back unchanged. */
  lemma GetCookieOfPair(name: string, value: string)
    requires IsPlainName(name)
    requires value != [] && ';' !in value && !IsSpace(value[0])
    ensures GetCookie(CookiePair(name, value), name) == Some(value)
  {
    var s := CookiePair(name, value);
    var n := |name|;
    assert s[..n] == name && s[n] == '=' && s[n + 1..] == value;
    NameCharNotSpace(name[0]);
    assert SkipSpaces(s, 0) == 0;
    assert s[0..n] == name;
    assert SkipSpaces(s, n) == n;
    assert SkipSpaces(s, n + 1) == n + 1;
    assert s[n + 1] == value[0];
    assert RunEnd(s, n + 1) == |s|;
    assert MatchAt(s, name, 0) == Some(Span(n + 1, |s|));
    assert Search(s, name, 0) == Some(Span(n + 1, |s|));
    assert s[n + 1..|s|] == value;
  }

  /** An entry whose value is only whitespace yields one whitespace character:
      `\s*` gives back its last character so that `[^;]+` can match. */
  lemma BlankValueYieldsLastSpace()
    ensures GetCookie("theme=  ;a=b", "theme") == Some(" ")
  {
    var s := "theme=  ;a=b";
    assert SkipSpaces(s, 0) == 0;
    assert s[0..5] == "theme";
    assert SkipSpaces(s, 5) == 5;
    assert SkipSpaces(s, 8) == 8;
    assert SkipSpaces(s, 7) == 8;
    assert SkipSpaces(s, 6) == 8;
    assert RunEnd(s, 8) == 8;
    assert RunEnd(s, 7) == 8;
    assert ValueAt(s, "theme", 0) == Some(Span(7, 8));
    assert MatchAt(s, "theme", 0) == Some(Span(7, 8));
    assert Search(s, "theme", 0) == Some(Span(7, 8));
    assert s[7..8] == " ";
  }

  /** When the name occurs twice, the first entry wins. */
  lemma FirstEntryWins()
    ensures GetCookie("theme=a;theme=b", "theme") == Some("a")
  {
    var s := "theme=a;theme=b";
    assert SkipSpaces(s, 0) == 0;
    assert s[0..5] == "theme";
    assert SkipSpaces(s, 5) == 5;
    assert SkipSpaces(s, 6) == 6;
    assert RunEnd(s, 7) == 7;
    assert RunEnd(s, 6) == 7;
    assert ValueAt(s, "theme", 0) == Some(Span(6, 7));
    assert MatchAt(s, "theme", 0) == Some(Span(6, 7));
    assert Search(s, "theme", 0) == Some(Span(6, 7));
    assert s[6..7] == "a";
  }

  /** A name must start an entry: `xtheme` is not `theme`. */
  lemma NameMustStartEntry()
    ensures GetCookie("xtheme=light", "theme") == None
  {
    var s := "xtheme=light";
    assert SkipSpaces(s, 0) == 0;
    assert s[0..5] != "theme";
    assert MatchAt(s, "theme", 0) == None;
    forall k | 1 <= k <= |s| ensures MatchAt(s, "theme", k) == None {
      if k < |s| { assert s[k] != ';'; }
    }
    NoMatchSearchNone(s, "theme", 0);
  }
}
