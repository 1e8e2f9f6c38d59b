/** The string-literal lexer of scripts/check_ui_term_blacklist.py (lines 86-107) against a declarative
    tokenisation of a line: outside literals a backslash is an ordinary character, inside it takes the next
    character with it. */
module StringLiterals {
  import opened Text

  predicate IsQuote(c: char) {
    c == '\'' || c == '"' || c == '`'
  }

  /** `line[i..b]` is made of ordinary characters and escape pairs only, inside a literal opened by `q`. */
  predicate Body(line: string, q: char, i: int, b: int)
    requires 0 <= i <= b <= |line|
    decreases b - i
  {
    i == b
    || (line[i] == '\\' && i + 2 <= b && Body(line, q, i + 2, b))
    || (line[i] != '\\' && line[i] != q && Body(line, q, i + 1, b))
  }

  predicate Closes(line: string, a: int, b: int) {
    0 <= a < b < |line| && IsQuote(line[a]) && line[b] == line[a] && Body(line, line[a], a + 1, b)
  }

  /** `line[..i]` splits into ordinary characters and closed literals. */
  ghost predicate Outside(line: string, i: int)
    decreases i
  {
    i == 0
    || (0 < i <= |line| && Outside(line, i - 1) && !IsQuote(line[i - 1]))
    || (0 < i <= |line| && exists a :: 0 <= a < i && Outside(line, a) && Closes(line, a, i - 1))
  }

  /** The closed literals of a line, by the positions of their quotes. */
  ghost predicate Literal(line: string, a: int, b: int) {
    Closes(line, a, b) && Outside(line, a)
  }

  /** `pos` lies strictly inside the literal. */
  ghost predicate Encloses(line: string, a: int, b: int, pos: int) {
    Literal(line, a, b) && a < pos < b
  }

  lemma {:induction false} BodyEndsOnce(line: string, q: char, i: int, b: int, b': int)
    requires 0 <= i <= b <= |line| && i <= b' <= |line| && Body(line, q, i, b) && Body(line, q, i, b')
    requires b < |line| && b' < |line| && line[b] == q && line[b'] == q && q != '\\'
    ensures b == b'
    decreases b - i
  {
    if i < b && i < b' {
      if line[i] == '\\' { BodyEndsOnce(line, q, i + 2, b, b'); } else { BodyEndsOnce(line, q, i + 1, b, b'); }
    }
  }

  /** A position reached outside literals comes after an ordinary character or after a closed literal. */
  lemma OutsideCases(line: string, i: int) returns (c: int)
    requires Outside(line, i) && i > 0
    ensures i <= |line|
    ensures (Outside(line, i - 1) && !IsQuote(line[i - 1])) || (0 <= c < i - 1 && Literal(line, c, i - 1))
  {
    c := 0;
    if !(Outside(line, i - 1) && !IsQuote(line[i - 1])) {
      assert exists a :: 0 <= a < i && Outside(line, a) && Closes(line, a, i - 1);
      c :| 0 <= c < i && Outside(line, c) && Closes(line, c, i - 1);
    }
  }

  /** Inside a literal no position is outside until it closes. */
  lemma {:induction false} NotOutsideWithin(line: string, a: int, b: int, i: int)
    requires Literal(line, a, b) && a < i <= b
    ensures !Outside(line, i)
    decreases i
  {
    if Outside(line, i) {
      var c := OutsideCases(line, i);
      if Outside(line, i - 1) && !IsQuote(line[i - 1]) {
        if i - 1 > a { NotOutsideWithin(line, a, b, i - 1); }
      } else if c == a {
        BodyEndsOnce(line, line[a], a + 1, b, i - 1);
      } else if c > a {
        NotOutsideWithin(line, a, b, c);
      } else {
        NotOutsideWithin(line, c, i - 1, a);
      }
    }
  }

  /** Closed literals are pairwise disjoint. */
  lemma {:induction false} LiteralsAreDisjoint(line: string, a: int, b: int, c: int, d: int)
    requires Literal(line, a, b) && Literal(line, c, d)
    ensures (a == c && b == d) || b < c || d < a
  {
    if a == c {
      BodyEndsOnce(line, line[a], a + 1, b, d);
    } else if a < c {
      if c <= b { NotOutsideWithin(line, a, b, c); }
    } else {
      if a <= d { NotOutsideWithin(line, c, d, a); }
    }
  }

  lemma {:induction false} BodyExtends(line: string, q: char, i: int, b: int, c: int)
    requires 0 <= i <= b <= c <= |line| && Body(line, q, i, b) && Body(line, q, b, c)
    ensures Body(line, q, i, c)
    decreases b - i
  {
    if i < b {
      if line[i] == '\\' { BodyExtends(line, q, i + 2, b, c); } else { BodyExtends(line, q, i + 1, b, c); }
    }
  }

  /** A literal that starts where the scan stands outside cannot start before it. */
  lemma StartsAfter(line: string, i: int, a: int, b: int)
    requires 0 <= i <= |line| && Outside(line, i) && Literal(line, a, b)
    ensures b < i || i <= a
  {
    if a < i <= b { NotOutsideWithin(line, a, b, i); }
  }

  /** The script's loop: the content of the one closed literal strictly around `pos`, or nothing. */
  method EnclosingStringLiteral(line: string, pos: int) returns (r: Option<string>)
    ensures r.Some? ==> exists a, b :: Encloses(line, a, b, pos) && r.value == line[a + 1..b]
    ensures r.None? ==> forall a, b :: !Encloses(line, a, b, pos)
  {
    var state: Option<char> := None;
    var start, i := -1, 0;
    while i < |line|
      invariant 0 <= i
      invariant state.None? ==> i <= |line| && Outside(line, i)
      invariant state.Some? ==> 0 <= start < |line| && start < i && Outside(line, start)
      invariant state.Some? ==> line[start] == state.value && IsQuote(state.value)
      invariant state.Some? && i <= |line| ==> Body(line, state.value, start + 1, i)
      invariant state.Some? && i > |line| ==> NeverCloses(line, start)
      invariant forall a, b :: Encloses(line, a, b, pos) ==> (if state.Some? then start else i) <= a
      decreases |line| - i
    {
      var c := line[i];
      if state.None? {
        if c == '\'' || c == '"' || c == '`' {
          state, start := Some(c), i;
        } else {
          assert Outside(line, i + 1);
          forall a, b | Encloses(line, a, b, pos) ensures i + 1 <= a { StartsAfter(line, i + 1, a, b); }
        }
      } else {
        if c == '\\' {
          if i + 2 <= |line| {
            assert Body(line, state.value, i, i + 2);
            BodyExtends(line, state.value, start + 1, i, i + 2);
          } else {
            EscapedEnd(line, start, i);
          }
          i := i + 2;
          continue;
        }
        if Some(c) == state {
          assert Closes(line, start, i) && Literal(line, start, i);
          if start < pos < i {
            assert Encloses(line, start, i, pos);
            return Some(line[start + 1..i]);
          }
          assert Outside(line, i + 1);
          forall a, b | Encloses(line, a, b, pos) ensures i + 1 <= a {
            LiteralsAreDisjoint(line, start, i, a, b);
          }
          state, start := None, -1;
        } else {
          assert Body(line, state.value, i, i + 1);
          BodyExtends(line, state.value, start + 1, i, i + 1);
        }
      }
      i := i + 1;
    }
    r := None;
    if state.Some? {
      if i == |line| { BodyToEnd(line, start); }
      forall a, b ensures !Encloses(line, a, b, pos) {
        if start < a { NoOutsideAfter(line, start, a); }
      }
    }
  }

  /** A literal opened at `s` that nothing closes. */
  ghost predicate NeverCloses(line: string, s: int) {
    forall b :: !Closes(line, s, b)
  }

  lemma {:induction false} BodyNotPast(line: string, q: char, i: int, e: int, b: int)
    requires 0 <= i <= e <= |line| && i <= b < |line| && q != '\\'
    requires Body(line, q, i, e) && Body(line, q, i, b) && line[b] == q
    ensures e <= b
    decreases e - i
  {
    if i < e && i < b {
      if line[i] == '\\' { BodyNotPast(line, q, i + 2, e, b); } else { BodyNotPast(line, q, i + 1, e, b); }
    }
  }

  lemma BodyToEnd(line: string, s: int)
    requires 0 <= s < |line| && IsQuote(line[s]) && Body(line, line[s], s + 1, |line|)
    ensures NeverCloses(line, s)
  {
    forall b ensures !Closes(line, s, b) {
      if Closes(line, s, b) { BodyNotPast(line, line[s], s + 1, |line|, b); }
    }
  }

  /** A backslash at the end of the line, inside a literal, leaves it open. */
  lemma EscapedEnd(line: string, s: int, i: int)
    requires 0 <= s < i < |line| && i + 1 == |line| && IsQuote(line[s]) && line[i] == '\\'
    requires Body(line, line[s], s + 1, i)
    ensures NeverCloses(line, s)
  {
    forall b ensures !Closes(line, s, b) {
      if Closes(line, s, b) { BodyNotPast(line, line[s], s + 1, i, b); }
    }
  }

  /** After an opening quote that never closes no position is outside, so no literal starts. */
  lemma {:induction false} NoOutsideAfter(line: string, s: int, i: int)
    requires 0 <= s < i && Outside(line, s) && s < |line| && IsQuote(line[s]) && NeverCloses(line, s)
    ensures !Outside(line, i)
    decreases i
  {
    if Outside(line, i) {
      var a := OutsideCases(line, i);
      if Outside(line, i - 1) && !IsQuote(line[i - 1]) {
        if i - 1 > s { NoOutsideAfter(line, s, i - 1); }
      } else if a < s {
        NotOutsideWithin(line, a, i - 1, s);
      } else if a > s {
        NoOutsideAfter(line, s, a);
      }
    }
  }

  /** How many backslashes stand in a row right before position `k`, counted back to `i`. */
  function Slashes(line: string, i: int, k: int): nat
    requires 0 <= i <= k <= |line|
    decreases k
  {
    if k == i || line[k - 1] != '\\' then 0 else 1 + Slashes(line, i, k - 1)
  }

  lemma {:induction false} SlashesFromNext(line: string, i: int, k: int)
    requires 0 <= i < k <= |line| && line[i] != '\\'
    ensures Slashes(line, i, k) == Slashes(line, i + 1, k)
    decreases k
  {
    if k > i + 1 { SlashesFromNext(line, i, k - 1); }
  }

  lemma {:induction false} SlashesFromPair(line: string, i: int, k: int)
    requires 0 <= i && i + 2 <= k <= |line| && line[i] == '\\'
    ensures Slashes(line, i, k) % 2 == Slashes(line, i + 2, k) % 2
    decreases k
  {
    if k > i + 2 {
      SlashesFromPair(line, i, k - 1);
    } else {
      assert Slashes(line, i, i + 1) == 1 + Slashes(line, i, i);
    }
  }

  /** Every quote inside stands behind an odd number of backslashes, and the end behind an even one. */
  predicate EvenlyEscaped(line: string, q: char, i: int, b: int)
    requires 0 <= i <= b <= |line|
  {
    Slashes(line, i, b) % 2 == 0 && forall k :: i <= k < b && line[k] == q ==> Slashes(line, i, k) % 2 == 1
  }

  /** What a literal may hold, by the backslashes before its quotes. */
  lemma {:induction false} BodyIff(line: string, q: char, i: int, b: int)
    requires 0 <= i <= b <= |line| && q != '\\'
    ensures Body(line, q, i, b) <==> EvenlyEscaped(line, q, i, b)
    decreases b - i
  {
    if i < b && line[i] == '\\' {
      if i + 2 <= b {
        BodyIff(line, q, i + 2, b);
        SlashesFromPair(line, i, b);
        assert Slashes(line, i, i + 1) == 1;
        forall k | i + 2 <= k < b ensures Slashes(line, i, k) % 2 == Slashes(line, i + 2, k) % 2 {
          SlashesFromPair(line, i, k);
        }
      } else {
        assert Slashes(line, i, b) == 1;
      }
    } else if i < b && line[i] != q {
      BodyIff(line, q, i + 1, b);
      SlashesFromNext(line, i, b);
      forall k | i < k < b ensures Slashes(line, i, k) == Slashes(line, i + 1, k) { SlashesFromNext(line, i, k); }
    } else if i < b {
      assert Slashes(line, i, i) == 0;
    }
  }

  /** Each of the three quotes opens a literal, and no other character does. */
  lemma QuotesAre(q: char, c: char)
    requires c != q && c != '\\'
    ensures Literal([q, c, q], 0, 2) <==> q == '\'' || q == '"' || q == '`'
  {
    var line := [q, c, q];
    assert line[0] == q && line[1] == c && line[2] == q;
    assert Body(line, q, 2, 2) && Body(line, q, 1, 2) && Outside(line, 0);
  }
}
