/** String operations the handlers rely on, with the semantics of the language
    each side is written in: JavaScript's `String.prototype.replace` with a string
    pattern (first occurrence only), Python's `str.split`, `str.join`,
    `str.replace` (all occurrences, left to right, non-overlapping), `str.strip`
    and `str(int)`. */
module Text {
  import opened Wrappers

  /** `p` occurs in `s` starting at index `i`. */
  predicate OccursAt(s: string, p: string, i: int) {
    0 <= i && i + |p| <= |s| && s[i..i + |p|] == p
  }

  /** Python's `p in s`. */
  predicate Contains(s: string, p: string) {
    exists i :: 0 <= i <= |s| && OccursAt(s, p, i)
  }

  /** The first index at or after `from` where `p` occurs in `s`. */
  function IndexFrom(s: string, p: string, from: nat): (r: Option<nat>)
    decreases |s| - from
    ensures r.Some? ==> from <= r.value && OccursAt(s, p, r.value)
    ensures r.Some? ==> forall j :: from <= j < r.value ==> !OccursAt(s, p, j)
    ensures r.None? ==> forall j :: from <= j ==> !OccursAt(s, p, j)
  {
    if from + |p| > |s| then None
    else if s[from..from + |p|] == p then Some(from)
    else IndexFrom(s, p, from + 1)
  }

  /** The first index where `p` occurs in `s`, if any. */
  function IndexOf(s: string, p: string): (r: Option<nat>)
    ensures r.Some? ==> OccursAt(s, p, r.value) && forall j :: 0 <= j < r.value ==> !OccursAt(s, p, j)
    ensures r.None? ==> forall j :: 0 <= j ==> !OccursAt(s, p, j)
  {
    IndexFrom(s, p, 0)
  }

  /** `p` is found exactly when `p in s`. */
  lemma IndexOfContains(s: string, p: string)
    ensures IndexOf(s, p).Some? <==> Contains(s, p)
  {
    if IndexOf(s, p).Some? {
      assert OccursAt(s, p, IndexOf(s, p).value);
    }
  }

  /** The first occurrence of `p` in `s` rewritten to `r` taken literally;
      without one, `s` is returned unchanged. */
  function ReplaceFirst(s: string, p: string, r: string): string {
    match IndexOf(s, p)
    case None => s
    case Some(i) => s[..i] + (r + s[i + |p|..])
  }

  /** The `GetSubstitution` step of the ECMAScript specification for a string
      pattern, which has no capture groups: in the replacement `$$` gives `$`,
      `$&` the matched text, `` $` `` the text before the match and `$'` the
      text after it; every other character, `$` included, is kept. */
  function Expanded(r: string, before: string, matched: string, after: string): string
    decreases |r|
  {
    if r == [] then []
    else if r[0] == '$' && |r| >= 2 && r[1] == '$' then "$" + Expanded(r[2..], before, matched, after)
    else if r[0] == '$' && |r| >= 2 && r[1] == '&' then matched + Expanded(r[2..], before, matched, after)
    else if r[0] == '$' && |r| >= 2 && r[1] == '`' then before + Expanded(r[2..], before, matched, after)
    else if r[0] == '$' && |r| >= 2 && r[1] == '\'' then after + Expanded(r[2..], before, matched, after)
    else [r[0]] + Expanded(r[1..], before, matched, after)
  }

  /** JavaScript `s.replace(p, r)` with a string pattern: only the first
      occurrence of `p` is rewritten, to `r` with its `$` patterns expanded;
      without one, `s` is returned unchanged. */
  function JsReplace(s: string, p: string, r: string): string {
    match IndexOf(s, p)
    case None => s
    case Some(i) => s[..i] + (Expanded(r, s[..i], p, s[i + |p|..]) + s[i + |p|..])
  }

  /** A replacement without `$` is inserted as it is. */
  lemma {:induction false} ExpandedLiteral(r: string, before: string, matched: string, after: string)
    requires '$' !in r
    ensures Expanded(r, before, matched, after) == r
    decreases |r|
  {
    if r != [] {
      assert '$' !in r[1..];
      ExpandedLiteral(r[1..], before, matched, after);
      assert r == [r[0]] + r[1..];
    }
  }

  /** JavaScript `replace` with a replacement free of `$` is the literal
      replacement of the first occurrence. */
  lemma JsReplaceLiteral(s: string, p: string, r: string)
    requires '$' !in r
    ensures JsReplace(s, p, r) == ReplaceFirst(s, p, r)
  {
    match IndexOf(s, p)
    case None =>
    case Some(i) =>
      assert JsReplace(s, p, r) == s[..i] + (r + s[i + |p|..]) by {
        ExpandedLiteral(r, s[..i], p, s[i + |p|..]);
      }
      ReplaceFirstAt(s, p, r, i);
  }

  /** With `$&` in the replacement the matched text is inserted again:
      renaming `{a}` to `{$&}` in `Hi {a}` gives `Hi {{a}}`. */
  lemma DollarAmpersandRepeatsMatch()
    ensures JsReplace("Hi {a}", "{a}", "{$&}") == "Hi {{a}}"
  {
    var s := "Hi {a}";
    assert !OccursAt(s, "{a}", 0) && !OccursAt(s, "{a}", 1) && !OccursAt(s, "{a}", 2) by {
      assert s[0] != '{' && s[1] != '{' && s[2] != '{';
    }
    assert OccursAt(s, "{a}", 3) by {
      assert s[3..6] == "{a}";
    }
    assert IndexOf(s, "{a}") == Some(3);
    assert Expanded("{$&}", "Hi ", "{a}", "") == "{{a}}" by {
      assert Expanded("}", "Hi ", "{a}", "") == "}";
      assert Expanded("$&}", "Hi ", "{a}", "") == "{a}" + "}";
    }
  }

  /** Where `p` first occurs at `i`, that occurrence becomes `r`. */
  lemma ReplaceFirstAt(s: string, p: string, r: string, i: nat)
    requires IndexOf(s, p) == Some(i)
    ensures ReplaceFirst(s, p, r) == s[..i] + (r + s[i + |p|..])
  {
  }

  /** The text before the first occurrence is kept, the occurrence becomes `r`,
      and everything after it, later occurrences included, is kept verbatim. */
  lemma ReplaceFirstShape(s: string, p: string, r: string)
    ensures !Contains(s, p) ==> ReplaceFirst(s, p, r) == s
    ensures Contains(s, p) ==>
      exists i :: OccursAt(s, p, i) && (forall j :: 0 <= j < i ==> !OccursAt(s, p, j))
                  && ReplaceFirst(s, p, r) == s[..i] + (r + s[i + |p|..])
  {
    IndexOfContains(s, p);
    if Contains(s, p) {
      var i := IndexOf(s, p).value;
      assert OccursAt(s, p, i) && (forall j :: 0 <= j < i ==> !OccursAt(s, p, j)) by {
        assert IndexOf(s, p) == Some(i);
      }
      assert ReplaceFirst(s, p, r) == s[..i] + (r + s[i + |p|..]) by {
        ReplaceFirstAt(s, p, r, i);
      }
    }
  }

  /** An occurrence inside a slice is an occurrence in the whole string. */
  lemma OccursInSlice(s: string, p: string, a: nat, b: nat, j: int)
    requires a <= b <= |s|
    requires OccursAt(s[a..b], p, j)
    ensures OccursAt(s, p, a + j)
  {
    forall k | 0 <= k < |p|
      ensures s[a + j..a + j + |p|][k] == p[k]
    {
      assert p[k] == s[a..b][j..j + |p|][k] == s[a..b][j + k];
    }
  }

  /** A slice of a string that does not contain `p` does not contain `p` either. */
  lemma SliceFree(s: string, p: string, a: nat, b: nat)
    requires a <= b <= |s|
    requires !Contains(s, p)
    ensures !Contains(s[a..b], p)
  {
    if Contains(s[a..b], p) {
      var j :| OccursAt(s[a..b], p, j);
      OccursInSlice(s, p, a, b, j);
    }
  }

  /** A pattern whose only opening brace is its first character, written
      into a text that does not contain it, is first found where it was
      written: an earlier match would have to start in the text before it and
      reach into it, putting a character other than `{` over its brace. */
  lemma InsertedFoundFirst(s: string, i: nat, e: nat, q: string)
    requires i <= e <= |s| && !Contains(s, q)
    requires |q| > 0 && q[0] == '{' && forall d :: 0 < d < |q| ==> q[d] != '{'
    ensures IndexOf(s[..i] + (q + s[e..]), q) == Some(i)
  {
    var t := s[..i] + (q + s[e..]);
    assert OccursAt(t, q, i) by { assert t[i..i + |q|] == q; }
    forall j | 0 <= j < i
      ensures !OccursAt(t, q, j)
    {
      if j + |q| <= i {
        assert t[j..j + |q|] == s[j..j + |q|];
        assert !OccursAt(s, q, j);
      } else if j + |q| <= |t| {
        var d := i - j;
        assert t[j..j + |q|][d] == t[i] == '{';
      }
    }
    var w := IndexOf(t, q).value;
    assert !(w < i);
  }

  /** Writing back what a slice held gives the text back. */
  lemma SpliceBack(s: string, i: nat, e: nat, p: string)
    requires i <= e <= |s| && s[i..e] == p
    ensures s[..i] + (p + s[e..]) == s
  {
    assert s == s[..i] + (s[i..e] + s[e..]);
  }

  /** Rewriting the first `p` to `q` and then the first `q` back to `p`
      gives the text back, when `q` did not occur and its only opening brace
      is its first character. */
  lemma ReplaceFirstThenBack(s: string, p: string, q: string)
    requires !Contains(s, q)
    requires |q| > 0 && q[0] == '{' && forall d :: 0 < d < |q| ==> q[d] != '{'
    ensures ReplaceFirst(ReplaceFirst(s, p, q), q, p) == s
  {
    match IndexOf(s, p)
    case None =>
      assert ReplaceFirst(s, p, q) == s;
      assert ReplaceFirst(s, q, p) == s by { IndexOfContains(s, q); }
    case Some(i) =>
      var e := i + |p|;
      var t := s[..i] + (q + s[e..]);
      assert ReplaceFirst(s, p, q) == t by { ReplaceFirstAt(s, p, q, i); }
      assert ReplaceFirst(t, q, p) == s by {
        InsertedFoundFirst(s, i, e, q);
        ReplaceFirstAt(t, q, p, i);
        assert t[..i] == s[..i] && t[i + |q|..] == s[e..];
        SpliceBack(s, i, e, p);
      }
  }

  /** Undoing a first-occurrence rewrite: replacing `{k}` by `{k'}` and then
      `{k'}` by `{k}` gives the original text back, provided `{k'}` did not
      already occur and `k'` contains no opening brace (so the inserted
      `{k'}` cannot be matched earlier, straddling the text before it). */
  lemma ReplaceFirstUndo(s: string, k: string, k': string)
    requires !Contains(s, "{" + k' + "}")
    requires '{' !in k'
    ensures ReplaceFirst(ReplaceFirst(s, "{" + k + "}", "{" + k' + "}"), "{" + k' + "}", "{" + k + "}") == s
  {
    BraceOnlyFirst(k');
    ReplaceFirstThenBack(s, "{" + k + "}", "{" + k' + "}");
  }

  /** In `{k}` with no `{` in `k`, the only opening brace is the first
      character. */
  lemma BraceOnlyFirst(k: string)
    requires '{' !in k
    ensures var q := "{" + k + "}"; forall d :: 0 < d < |q| ==> q[d] != '{'
  {
    var q := "{" + k + "}";
    forall d | 0 < d < |q| ensures q[d] != '{' {
      if d < |q| - 1 { assert q[d] == k[d - 1]; }
    }
  }

  /** Python `s.split(sep)` for a non-empty separator. */
  function Split(s: string, sep: string): (parts: seq<string>)
    requires |sep| > 0
    decreases |s|
    ensures |parts| >= 1
  {
    match IndexOf(s, sep)
    case None => [s]
    case Some(i) => [s[..i]] + Split(s[i + |sep|..], sep)
  }

  /** The first piece of a split ends where the separator first occurs. */
  lemma SplitAt(s: string, sep: string, i: nat)
    requires |sep| > 0 && IndexOf(s, sep) == Some(i)
    ensures Split(s, sep) == [s[..i]] + Split(s[i + |sep|..], sep)
  {
  }

  /** Python `sep.join(parts)`. */
  function Join(parts: seq<string>, sep: string): string {
    if |parts| == 0 then ""
    else if |parts| == 1 then parts[0]
    else parts[0] + sep + Join(parts[1..], sep)
  }

  /** Splitting and joining back with the same separator is the identity. */
  lemma {:induction false} JoinSplit(s: string, sep: string)
    requires |sep| > 0
    ensures Join(Split(s, sep), sep) == s
    decreases |s|
  {
    match IndexOf(s, sep)
    case None =>
    case Some(i) =>
      var rest := s[i + |sep|..];
      var tail := Split(rest, sep);
      JoinSplit(rest, sep);
      var parts := [s[..i]] + tail;
      assert Split(s, sep) == parts;
      assert parts[1..] == tail;
      assert Join(parts, sep) == s[..i] + sep + Join(tail, sep);
      assert s[i..i + |sep|] == sep;
      assert s == s[..i] + s[i..i + |sep|] + rest;
  }

  /** A string without the character `c` does not contain `[c]`. */
  lemma CharAbsent(s: string, c: char)
    requires c !in s
    ensures !Contains(s, [c])
  {
    forall i | 0 <= i <= |s|
      ensures !OccursAt(s, [c], i)
    {
      if i < |s| {
        assert s[i..i + 1][0] == s[i];
      }
    }
  }

  /** A one-character separator after a piece without it is found right
      after that piece. */
  lemma SeparatorAfterPiece(p: string, c: char, rest: string)
    requires c !in p
    ensures IndexOf(p + [c] + rest, [c]) == Some(|p|)
  {
    var s := p + [c] + rest;
    assert OccursAt(s, [c], |p|) by { assert s[|p|..|p| + 1] == [c]; }
    forall j | 0 <= j < |p|
      ensures !OccursAt(s, [c], j)
    {
      assert s[j..j + 1][0] == s[j] == p[j];
    }
    var i := IndexOf(s, [c]).value;
    assert !(i < |p|);
  }

  /** Joining pieces that do not contain a one-character separator and
      splitting on it gives the pieces back. */
  lemma {:induction false} SplitJoin(parts: seq<string>, c: char)
    requires |parts| >= 1
    requires forall k :: 0 <= k < |parts| ==> c !in parts[k]
    ensures Split(Join(parts, [c]), [c]) == parts
    decreases |parts|
  {
    var p := parts[0];
    if |parts| == 1 {
      CharAbsent(p, c);
    } else {
      var rest := Join(parts[1..], [c]);
      var s := p + [c] + rest;
      assert Join(parts, [c]) == s;
      SeparatorAfterPiece(p, c, rest);
      assert s[..|p|] == p && s[|p| + 1..] == rest;
      assert Split(s, [c]) == [p] + Split(rest, [c]);
      SplitJoin(parts[1..], c);
      assert parts == [p] + parts[1..];
    }
  }

  /** The text before the first occurrence of `sep` does not contain it. */
  lemma BeforeFirstFree(s: string, sep: string, i: nat)
    requires |sep| > 0 && IndexOf(s, sep) == Some(i)
    ensures !Contains(s[..i], sep)
  {
    forall j | 0 <= j <= i ensures !OccursAt(s[..i], sep, j) {
      if j + |sep| <= i {
        assert s[..i][j..j + |sep|] == s[j..j + |sep|];
        assert !OccursAt(s, sep, j);
      }
    }
  }

  /** No piece produced by `split` contains the separator. */
  lemma {:induction false} SplitPiecesFree(s: string, sep: string)
    requires |sep| > 0
    ensures forall k :: 0 <= k < |Split(s, sep)| ==> !Contains(Split(s, sep)[k], sep)
    decreases |s|
  {
    match IndexOf(s, sep)
    case None =>
    case Some(i) =>
      var rest := s[i + |sep|..];
      SplitPiecesFree(rest, sep);
      BeforeFirstFree(s, sep, i);
      assert Split(s, sep) == [s[..i]] + Split(rest, sep);
  }

  /** `split` yields a second piece exactly when the separator occurs. */
  lemma SplitHasSecondPiece(s: string, sep: string)
    requires |sep| > 0
    ensures |Split(s, sep)| >= 2 <==> Contains(s, sep)
  {
  }

  /** The first piece of a split is a prefix of the string. */
  lemma SplitFirstIsPrefix(s: string, sep: string)
    requires |sep| > 0
    ensures exists n :: 0 <= n <= |s| && Split(s, sep)[0] == s[..n]
  {
    match IndexOf(s, sep)
    case None => assert s == s[..|s|];
    case Some(i) =>
  }

  /** Python `s.replace(p, r)` for a non-empty pattern: every occurrence, scanning
      left to right without overlap. */
  function ReplaceAll(s: string, p: string, r: string): string
    requires |p| > 0
    decreases |s|
  {
    match IndexOf(s, p)
    case None => s
    case Some(i) => s[..i] + (r + ReplaceAll(s[i + |p|..], p, r))
  }

  /** `s.replace(p, r) == r.join(s.split(p))`: the result is the pieces between
      occurrences, none of which contains `p`, glued together with `r`. */
  lemma {:induction false} ReplaceAllIsJoinOfSplit(s: string, p: string, r: string)
    requires |p| > 0
    ensures ReplaceAll(s, p, r) == Join(Split(s, p), r)
    decreases |s|
  {
    match IndexOf(s, p)
    case None =>
      assert ReplaceAll(s, p, r) == s && Split(s, p) == [s];
    case Some(i) =>
      var rest := s[i + |p|..];
      ReplaceAllIsJoinOfSplit(rest, p, r);
      SplitAt(s, p, i);
      ReplaceAllAt(s, p, r, i);
      var parts := [s[..i]] + Split(rest, p);
      assert parts[1..] == Split(rest, p);
      assert Join(parts, r) == s[..i] + (r + Join(Split(rest, p), r));
  }

  /** The text before the first occurrence is kept and the rest is rewritten
      in turn. */
  lemma ReplaceAllAt(s: string, p: string, r: string, i: nat)
    requires |p| > 0 && IndexOf(s, p) == Some(i)
    ensures ReplaceAll(s, p, r) == s[..i] + (r + ReplaceAll(s[i + |p|..], p, r))
  {
  }

  /** Python's `str.isspace` for one character. */
  predicate IsSpace(c: char) {
    var n := c as int;
    (9 <= n <= 13) || (28 <= n <= 32) || n == 0x85 || n == 0xA0 || n == 0x1680
    || (0x2000 <= n <= 0x200A) || n == 0x2028 || n == 0x2029 || n == 0x202F
    || n == 0x205F || n == 0x3000
  }

  function TrimStart(s: string): (r: string)
    ensures |r| <= |s| && r == s[|s| - |r|..]
    ensures |r| > 0 ==> !IsSpace(r[0])
    ensures forall k :: 0 <= k < |s| - |r| ==> IsSpace(s[k])
  {
    if |s| > 0 && IsSpace(s[0]) then TrimStart(s[1..]) else s
  }

  function TrimEnd(s: string): (r: string)
    ensures |r| <= |s| && r == s[..|r|]
    ensures |r| > 0 ==> !IsSpace(r[|r| - 1])
    ensures forall k :: |r| <= k < |s| ==> IsSpace(s[k])
  {
    if |s| > 0 && IsSpace(s[|s| - 1]) then TrimEnd(s[..|s| - 1]) else s
  }

  /** Python `s.strip()`. */
  function Strip(s: string): string {
    TrimStart(TrimEnd(s))
  }

  /** `strip` returns a slice of its argument with no whitespace at either end,
      and removes only whitespace. */
  /** `t` is `s[a..b]` and everything outside that slice is whitespace. */
  predicate TrimmedSlice(s: string, t: string, a: nat, b: nat) {
    a <= b <= |s| && t == s[a..b]
    && (forall k :: 0 <= k < a ==> IsSpace(s[k]))
    && (forall k :: b <= k < |s| ==> IsSpace(s[k]))
  }

  lemma StripIsTrimmedSlice(s: string)
    ensures exists a, b :: TrimmedSlice(s, Strip(s), a, b)
    ensures |Strip(s)| > 0 ==> !IsSpace(Strip(s)[0]) && !IsSpace(Strip(s)[|Strip(s)| - 1])
  {
    var e := TrimEnd(s);
    var r := TrimStart(e);
    assert Strip(s) == r;
    var a, b := |e| - |r|, |e|;
    assert TrimmedSlice(s, r, a, b) by {
      assert r == s[a..b] by {
        assert e == s[..b];
        assert r == e[a..];
      }
      forall k | 0 <= k < a ensures IsSpace(s[k]) {
        assert e[k] == s[k];
      }
    }
    if |r| > 0 {
      assert r[|r| - 1] == e[|e| - 1];
    }
  }

  function DigitChar(d: nat): char
    requires d < 10
  {
    ('0' as int + d) as char
  }

  /** Python `str(n)` / JavaScript `String(n)` for a natural number. */
  function Decimal(n: nat): (r: string)
    ensures |r| >= 1
    ensures forall k :: 0 <= k < |r| ==> '0' <= r[k] <= '9'
  {
    if n < 10 then [DigitChar(n)] else Decimal(n / 10) + [DigitChar(n % 10)]
  }

  /** Python `str(i)` for an integer. */
  function IntText(i: int): string {
    if i < 0 then "-" + Decimal(-i) else Decimal(i)
  }

  /** Distinct numbers print differently, so keys built from ids do not collide. */
  lemma {:induction false} DecimalInjective(m: nat, n: nat)
    requires Decimal(m) == Decimal(n)
    ensures m == n
  {
    if m < 10 && n < 10 {
      assert DigitChar(m) == Decimal(m)[0];
    } else if m < 10 || n < 10 {
      assert false;
    } else {
      var dm, dn := Decimal(m / 10), Decimal(n / 10);
      var cm, cn := DigitChar(m % 10), DigitChar(n % 10);
      assert Decimal(m) == dm + [cm];
      assert Decimal(n) == dn + [cn];
      assert |dm| == |dn|;
      assert dm == Decimal(m)[..|dm|];
      assert dn == Decimal(n)[..|dn|];
      DecimalInjective(m / 10, n / 10);
      assert cm == Decimal(m)[|dm|];
      assert cn == Decimal(n)[|dn|];
      assert m % 10 == n % 10;
    }
  }
}
