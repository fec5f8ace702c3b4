/** Placeholder extraction from a task description, as the editor does it with
    `value.match(/\{([^}]+)\}/g)` followed by stripping the braces of each match,
    and the auto-brace rule applied while typing a description. */
module Template {
  import opened Wrappers
  import opened Text

  /** The position of the first `}` at or after `from`, if any. */
  function CloseFrom(s: string, from: nat): (r: Option<nat>)
    decreases |s| - from
    ensures r.Some? ==> from <= r.value < |s| && s[r.value] == '}'
    ensures r.Some? ==> forall k :: from <= k < r.value ==> s[k] != '}'
    ensures r.None? ==> forall k :: from <= k < |s| ==> s[k] != '}'
  {
    if from >= |s| then None
    else if s[from] == '}' then Some(from)
    else CloseFrom(s, from + 1)
  }

  /** The tokens a global match of `\{([^}]+)\}` finds, left to right. A match
      starts at a `{` whose next `}` is at least two characters further on (the
      greedy class `[^}]+` runs exactly up to that `}` and must be non-empty);
      the token is the text in between, which may itself contain `{`. The scan
      resumes after that `}`. Anywhere else the scan moves on one character. */
  function Tokens(s: string): seq<string>
    decreases |s|
  {
    if |s| == 0 then []
    else if s[0] == '{' then
      match CloseFrom(s, 1)
      case Some(j) =>
        if j >= 2 then [s[1..j]] + Tokens(s[j + 1..]) else Tokens(s[1..])
      case None => Tokens(s[1..])
    else Tokens(s[1..])
  }

  /** The braces at `i` and `j` enclose the text between them. */
  lemma BracedAt(s: string, i: nat, j: nat)
    requires i < j < |s| && s[i] == '{' && s[j] == '}'
    ensures OccursAt(s, "{" + s[i + 1..j] + "}", i)
  {
    assert s[i..j + 1] == "{" + s[i + 1..j] + "}";
  }

  /** An occurrence in a suffix is an occurrence in the whole text. */
  lemma ContainsInSuffix(s: string, p: string, a: nat)
    requires a <= |s| && Contains(s[a..], p)
    ensures Contains(s, p)
  {
    var i :| 0 <= i <= |s[a..]| && OccursAt(s[a..], p, i);
    assert s[a..] == s[a..|s|];
    OccursInSlice(s, p, a, |s|, i);
    assert OccursAt(s, p, a + i);
  }

  /** What the pattern demands of a token it yields from `s`. */
  predicate TokenOf(s: string, t: string) {
    |t| >= 1 && '}' !in t && Contains(s, "{" + t + "}")
  }

  /** The token at the head of a text is braced there and holds no `}`. */
  lemma HeadTokenIsBracedName(s: string, j: nat)
    requires |s| > 0 && s[0] == '{' && CloseFrom(s, 1) == Some(j) && j >= 2
    ensures TokenOf(s, s[1..j])
  {
    var t := s[1..j];
    forall k | 0 <= k < |t| ensures t[k] != '}' {
      assert t[k] == s[1 + k];
    }
    BracedAt(s, 0, j);
    assert OccursAt(s, "{" + t + "}", 0);
  }

  /** Every token is non-empty, holds no `}`, and appears braced in the text. */
  lemma {:induction false} TokenIsBracedName(s: string, t: string)
    requires t in Tokens(s)
    ensures TokenOf(s, t)
    decreases |s|
  {
    assert |s| > 0;
    if s[0] == '{' && CloseFrom(s, 1).Some? && CloseFrom(s, 1).value >= 2 {
      var j := CloseFrom(s, 1).value;
      if t == s[1..j] {
        HeadTokenIsBracedName(s, j);
      } else {
        assert t in Tokens(s[j + 1..]) by {
          assert Tokens(s) == [s[1..j]] + Tokens(s[j + 1..]);
        }
        TokenIsBracedName(s[j + 1..], t);
        ContainsInSuffix(s, "{" + t + "}", j + 1);
      }
    } else {
      assert t in Tokens(s[1..]) by {
        assert Tokens(s) == Tokens(s[1..]);
      }
      TokenIsBracedName(s[1..], t);
      ContainsInSuffix(s, "{" + t + "}", 1);
    }
  }

  /** A text without `{` has no tokens. */
  lemma {:induction false} NoOpeningBraceNoTokens(s: string)
    requires '{' !in s
    ensures Tokens(s) == []
    decreases |s|
  {
    if |s| > 0 {
      assert s[0] != '{';
      assert forall c :: c in s[1..] ==> c in s;
      NoOpeningBraceNoTokens(s[1..]);
    }
  }

  /** Every `{` has a `}` somewhere after it: no placeholder is left unfinished. */
  predicate Closed(s: string) {
    forall i :: 0 <= i < |s| && s[i] == '{' ==> exists k :: i < k < |s| && s[k] == '}'
  }

  /** JavaScript `s.endsWith(c)` for one character. */
  predicate EndsWith(s: string, c: char) {
    |s| > 0 && s[|s| - 1] == c
  }

  /** The description field's change handler: a value that ends in `{` (and so
      not in `{}`) gets a `}` appended before it is stored. */
  function AutoBrace(value: string): (stored: string)
    ensures EndsWith(value, '{') ==> stored == value + "}" && EndsWith(stored, '}')
    ensures !EndsWith(value, '{') ==> stored == value
    ensures !EndsWith(stored, '{')
  {
    if EndsWith(value, '{') && !(|value| >= 2 && value[|value| - 2..] == "{}") then value + "}" else value
  }

  /** A suffix of a text with every placeholder finished has them finished too. */
  lemma ClosedSuffix(p: string, a: nat)
    requires a <= |p| && Closed(p)
    ensures Closed(p[a..])
  {
    var q := p[a..];
    forall i | 0 <= i < |q| && q[i] == '{' ensures exists k :: i < k < |q| && q[k] == '}' {
      assert p[a + i] == '{';
      var k :| a + i < k < |p| && p[k] == '}';
      assert q[k - a] == '}';
    }
  }

  /** Typing `{` after a text with no unfinished placeholder closes it as `{}`,
      which adds no token: the stored text has exactly the old tokens. */
  lemma {:induction false} EmptyBracesAddNoToken(p: string)
    requires Closed(p)
    ensures Tokens(p + "{}") == Tokens(p)
    decreases |p|
  {
    var s := p + "{}";
    if |p| == 0 {
      assert Tokens(s) == Tokens(s[1..]);
      assert s[1..] == "}";
      assert Tokens("}") == Tokens("");
    } else {
      ClosedSuffix(p, 1);
      assert s[1..] == p[1..] + "{}";
      if p[0] == '{' {
        var k :| 0 < k < |p| && p[k] == '}';
        var cp := CloseFrom(p, 1);
        assert cp.Some?;
        var j := cp.value;
        CloseFromPrefix(p, "{}", 1);
        if j >= 2 {
          ClosedSuffix(p, j + 1);
          assert s[j + 1..] == p[j + 1..] + "{}";
          assert s[1..j] == p[1..j];
          EmptyBracesAddNoToken(p[j + 1..]);
        } else {
          EmptyBracesAddNoToken(p[1..]);
        }
      } else {
        EmptyBracesAddNoToken(p[1..]);
      }
    }
  }

  /** Appending text does not move the first `}` of the original text. */
  lemma {:induction false} CloseFromPrefix(p: string, q: string, from: nat)
    requires CloseFrom(p, from).Some?
    ensures CloseFrom(p + q, from) == CloseFrom(p, from)
    decreases |p| - from
  {
    if p[from] != '}' {
      CloseFromPrefix(p, q, from + 1);
    }
  }

  /** With an unfinished placeholder before it, the appended `{}` does not stay
      empty: `{a` followed by a typed `{` is stored as `{a{}`, whose one token
      is `a{`. */
  lemma DanglingBraceSwallowsTypedBrace()
    ensures !Closed("{a")
    ensures AutoBrace("{a{") == "{a{}"
    ensures Tokens("{a{}") == ["a{"]
    ensures Tokens("{a") == []
  {
    assert "{a"[0] == '{' && |"{a"| == 2 && "{a"[1] != '}';
    assert CloseFrom("{a{}", 1) == Some(3);
    assert "{a{}"[1..3] == "a{";
    assert "{a{}"[4..] == "";
    assert CloseFrom("{a", 1) == None;
    assert Tokens("{a") == Tokens("a");
    assert Tokens("a") == Tokens("");
  }

  /** Text without `{` in front of the rest adds no tokens. */
  lemma {:induction false} PlainPrefix(x: string, y: string)
    requires '{' !in x
    ensures Tokens(x + y) == Tokens(y)
    decreases |x|
  {
    if |x| > 0 {
      assert (x + y)[1..] == x[1..] + y;
      assert x[0] in x && (x + y)[0] == x[0];
      assert Tokens(x + y) == Tokens(x[1..] + y);
      assert forall c :: c in x[1..] ==> c in x;
      PlainPrefix(x[1..], y);
    } else {
      assert x + y == y;
    }
  }

  /** A braced name at the front is the first token. */
  lemma BracedHead(t: string, y: string)
    requires |t| >= 1 && '}' !in t
    ensures Tokens("{" + t + "}" + y) == [t] + Tokens(y)
  {
    var s := "{" + t + "}" + y;
    var j := |t| + 1;
    assert forall k :: 1 <= k < j ==> s[k] == t[k - 1];
    assert s[j] == '}';
    assert CloseFrom(s, 1) == Some(j);
    assert s[1..j] == t;
    assert s[j + 1..] == y;
  }

  /** The two placeholders of a description such as `{topic} for {audience}`
      are found in order. */
  lemma TwoPlaceholders(a: string, b: string)
    requires |a| >= 1 && '}' !in a && |b| >= 1 && '}' !in b
    ensures Tokens("{" + a + "} for {" + b + "}") == [a, b]
  {
    var tail := "{" + b + "}";
    var mid := " for " + tail;
    assert Tokens(tail) == [b] by {
      BracedHead(b, "");
      assert tail == "{" + b + "}" + "";
    }
    assert Tokens(mid) == [b] by {
      assert forall c :: c in " for " ==> c != '{';
      PlainPrefix(" for ", tail);
    }
    assert "{" + a + "} for {" + b + "}" == "{" + a + "}" + mid;
    BracedHead(a, mid);
  }
}
