/**
 * The two field helpers of the scraper, `_get_value` and `_get_list`, and the
 * pieces of Python's `str` they are made of: `strip()` with no argument and
 * `split(',')`.
 */
module Fields {

  /** Python's `str.isspace()` for one character: exactly the code points
      that `str.strip()` with no argument removes. */
  predicate IsSpace(c: char) {
    || c == ' '
    || ('\t' <= c <= '\r')                  // tab, line feed, vertical tab, form feed, carriage return
    || ('\U{1C}' <= c <= '\U{1F}')          // file, group, record and unit separators
    || c == '\U{85}' || c == '\U{A0}' || c == '\U{1680}'
    || ('\U{2000}' <= c <= '\U{200A}')
    || c == '\U{2028}' || c == '\U{2029}' || c == '\U{202F}' || c == '\U{205F}' || c == '\U{3000}'
  }

  predicate AllSpace(s: string) {
    forall i :: 0 <= i < |s| ==> IsSpace(s[i])
  }

  /** `r` is the slice of `s` from the cut `i`, with only whitespace before
      and after it. */
  predicate TrimAt(r: string, s: string, i: int) {
    && 0 <= i <= |s| - |r|
    && r == s[i..i + |r|]
    && AllSpace(s[..i])
    && AllSpace(s[i + |r|..])
  }

  /** `r` neither starts nor ends with whitespace. */
  predicate NoOuterSpace(r: string) {
    r == [] || (!IsSpace(r[0]) && !IsSpace(r[|r| - 1]))
  }

  /** `r` is what remains of `s` once its leading and trailing whitespace is
      removed: a slice of `s` with only whitespace around it, and neither
      starting nor ending with whitespace. */
  ghost predicate IsTrimOf(r: string, s: string) {
    (exists i :: TrimAt(r, s, i)) && NoOuterSpace(r)
  }

  /** `str.lstrip()`: drops the leading whitespace. */
  function StripLeft(s: string): (r: string)
    ensures |r| <= |s| && r == s[|s| - |r|..]
    ensures AllSpace(s[..|s| - |r|])
    ensures r == [] || !IsSpace(r[0])
  {
    if s != [] && IsSpace(s[0]) then
      var r := StripLeft(s[1..]);
      assert s[..|s| - |r|] == [s[0]] + s[1..][..|s| - 1 - |r|];
      r
    else s
  }

  /** `str.rstrip()`: drops the trailing whitespace. */
  function StripRight(s: string): (r: string)
    ensures |r| <= |s| && r == s[..|r|]
    ensures AllSpace(s[|r|..])
    ensures r == [] || !IsSpace(r[|r| - 1])
  {
    if s != [] && IsSpace(s[|s| - 1]) then
      var r := StripRight(s[..|s| - 1]);
      assert s[|r|..] == s[..|s| - 1][|r|..] + [s[|s| - 1]];
      r
    else s
  }

  /** `str.strip()`. */
  function Strip(s: string): (r: string)
    ensures IsTrimOf(r, s)
  {
    var l := StripLeft(s);
    var r := StripRight(l);
    var i := |s| - |l|;
    assert r == s[i..i + |r|];
    assert AllSpace(s[i + |r|..]) by {
      assert s[i + |r|..] == l[|r|..];
    }
    assert TrimAt(r, s, i);
    r
  }

  /** A character before the cut `i` of an all-whitespace prefix is whitespace. */
  lemma SpaceBefore(s: string, i: int, k: int)
    requires 0 <= k < i <= |s| && AllSpace(s[..i])
    ensures IsSpace(s[k])
  {
    assert s[..i][k] == s[k];
  }

  /** A character after the cut `j` of an all-whitespace suffix is whitespace. */
  lemma SpaceAfter(s: string, j: int, k: int)
    requires 0 <= j <= k < |s| && AllSpace(s[j..])
    ensures IsSpace(s[k])
  {
    assert s[j..][k - j] == s[k];
  }

  /** A non-empty trimmed slice starts at the first non-whitespace character
      and ends after the last one, so two such slices coincide. */
  lemma TrimAtSameCuts(s: string, r1: string, i1: int, r2: string, i2: int)
    requires TrimAt(r1, s, i1) && NoOuterSpace(r1) && r1 != []
    requires TrimAt(r2, s, i2) && NoOuterSpace(r2) && r2 != []
    ensures r1 == r2
  {
    assert s[i1] == r1[0] && s[i2] == r2[0];
    if i2 > i1 { SpaceBefore(s, i2, i1); }
    if i1 > i2 { SpaceBefore(s, i1, i2); }
    var j1, j2 := i1 + |r1|, i2 + |r2|;
    assert s[j1 - 1] == r1[|r1| - 1] && s[j2 - 1] == r2[|r2| - 1];
    if j1 < j2 { SpaceAfter(s, j1, j2 - 1); }
    if j2 < j1 { SpaceAfter(s, j2, j1 - 1); }
  }

  /** An empty trimmed slice leaves nothing but whitespace around it. */
  lemma TrimAtEmpty(s: string, i: int, k: int)
    requires TrimAt([], s, i) && 0 <= k < |s|
    ensures IsSpace(s[k])
  {
    if k < i { SpaceBefore(s, i, k); } else { SpaceAfter(s, i, k); }
  }

  /** A string has exactly one trimmed form, so `IsTrimOf` pins down `Strip`. */
  lemma TrimUnique(r1: string, r2: string, s: string)
    requires IsTrimOf(r1, s) && IsTrimOf(r2, s)
    ensures r1 == r2
  {
    var i1 :| TrimAt(r1, s, i1);
    var i2 :| TrimAt(r2, s, i2);
    if r1 != [] && r2 != [] {
      TrimAtSameCuts(s, r1, i1, r2, i2);
    } else if r1 != [] {
      assert s[i1] == r1[0];
      TrimAtEmpty(s, i2, i1);
    } else if r2 != [] {
      assert s[i2] == r2[0];
      TrimAtEmpty(s, i1, i2);
    } else {
      assert |r1| == 0 == |r2|;
    }
  }

  /** The trimmed form is empty exactly when the string is all whitespace. */
  lemma TrimEmptyIffBlank(r: string, s: string)
    requires IsTrimOf(r, s)
    ensures r == [] <==> AllSpace(s)
  {
    var i :| TrimAt(r, s, i);
    if r == [] {
      forall k | 0 <= k < |s| ensures IsSpace(s[k]) {
        TrimAtEmpty(s, i, k);
      }
    } else {
      assert s[i] == r[0];
    }
  }

  /** Stripping twice is stripping once. */
  lemma StripIdempotent(s: string)
    ensures Strip(Strip(s)) == Strip(s)
  {
    var r := Strip(s);
    assert IsTrimOf(r, r) by {
      assert r == r[0..|r|] && r[..0] == [] && r[|r|..] == [];
      assert TrimAt(r, r, 0);
    }
    TrimUnique(Strip(r), r, r);
  }

  /** `str.split(sep)` with an explicit one-character separator: the pieces
      between consecutive separators, empty pieces included. */
  function Split(s: string, sep: char): (parts: seq<string>)
    ensures |parts| >= 1
    ensures forall p :: p in parts ==> sep !in p
  {
    if s == [] then [[]]
    else
      var rest := Split(s[1..], sep);
      if s[0] == sep then [[]] + rest
      else [[s[0]] + rest[0]] + rest[1..]
  }

  /** `sep.join(parts)`. */
  function Join(parts: seq<string>, sep: char): string {
    if parts == [] then []
    else if |parts| == 1 then parts[0]
    else parts[0] + [sep] + Join(parts[1..], sep)
  }

  /** Joining the pieces of a split with the same separator gives the string back. */
  lemma {:induction false} JoinSplit(s: string, sep: char)
    ensures Join(Split(s, sep), sep) == s
  {
    if s != [] {
      var rest := Split(s[1..], sep);
      JoinSplit(s[1..], sep);
      assert s == [s[0]] + Join(rest, sep);
      if s[0] == sep {
        assert Split(s, sep) == [[]] + rest;
        assert Join([[]] + rest, sep) == [] + [sep] + Join(rest, sep) by {
          assert ([[]] + rest)[1..] == rest;
        }
      } else {
        var first := [s[0]] + rest[0];
        assert Split(s, sep) == [first] + rest[1..];
        if |rest| == 1 {
          assert Join([first], sep) == first;
        } else {
          assert Join(rest, sep) == rest[0] + [sep] + Join(rest[1..], sep);
          assert Join([first] + rest[1..], sep) == first + [sep] + Join(rest[1..], sep) by {
            assert ([first] + rest[1..])[1..] == rest[1..];
          }
        }
      }
    }
  }

  /** Splitting a string that starts with a separator-free piece `p`. */
  lemma {:induction false} SplitAfterPiece(p: string, t: string, sep: char)
    requires sep !in p
    ensures Split(p + t, sep) == [p + Split(t, sep)[0]] + Split(t, sep)[1..]
  {
    if p != [] {
      SplitAfterPiece(p[1..], t, sep);
      assert (p + t)[1..] == p[1..] + t;
      assert (p + t)[0] == p[0];
      assert [p[0]] + (p[1..] + Split(t, sep)[0]) == p + Split(t, sep)[0];
    } else {
      assert p + t == t;
      assert p + Split(t, sep)[0] == Split(t, sep)[0];
      assert Split(t, sep) == [Split(t, sep)[0]] + Split(t, sep)[1..];
    }
  }

  /** Splitting a join of separator-free pieces gives the pieces back. */
  lemma {:induction false} SplitJoin(parts: seq<string>, sep: char)
    requires |parts| >= 1
    requires forall p :: p in parts ==> sep !in p
    ensures Split(Join(parts, sep), sep) == parts
  {
    var p := parts[0];
    if |parts| == 1 {
      SplitAfterPiece(p, [], sep);
      assert p + [] == p;
    } else {
      var tail := Join(parts[1..], sep);
      SplitJoin(parts[1..], sep);
      SplitAfterPiece(p, [sep] + tail, sep);
      assert p + [sep] + tail == p + ([sep] + tail);
      assert ([sep] + tail)[1..] == tail;
      assert p + [] == p;
    }
  }

  /** What `_get_list` returns: the empty string `''`, or a list of strings. */
  datatype ListField = EmptyText | Parts(items: seq<string>)

  /** `_get_value`: the first XPath match with surrounding whitespace removed,
      or `''` when nothing matched. */
  function GetValue(val: seq<string>): (r: string)
    ensures val == [] ==> r == []
    ensures val != [] ==> IsTrimOf(r, val[0])
    ensures r == [] <==> val == [] || AllSpace(val[0])
  {
    if val != [] then
      var stripped := Strip(val[0]);
      TrimEmptyIffBlank(stripped, val[0]);
      stripped
    else []
  }

  /** `_get_list`: `''` when nothing matched, otherwise the stripped first
      match cut at every comma. */
  function GetList(val: seq<string>): (r: ListField)
    ensures val == [] <==> r == EmptyText
    ensures r.Parts? ==> && |r.items| >= 1
                         && (forall p :: p in r.items ==> ',' !in p)
                         && IsTrimOf(Join(r.items, ','), val[0])
  {
    if val != [] then
      var stripped := Strip(val[0]);
      JoinSplit(stripped, ',');
      Parts(Split(stripped, ','))
    else EmptyText
  }
}
