/** String operations shared by the modelled scripts: the parts of Python's `str` they rely on, and an option type.
    - `strip` with the characters that `str.isspace` accepts: a stripped text is trimmed, stripping it again changes
      nothing, and it is empty exactly when every character is a space;
    - `startswith`, `endswith`, `in`, `upper` and `lower`, the last two on ASCII letters;
    - `join`, and flattening and mapping lists, with what one more element at the end adds to them. */
module Text {

  datatype Option<+T> = None | Some(value: T)

  /** The characters that `str.isspace` accepts, which is what `str.strip` removes. */
  predicate IsSpace(c: char) {
    var n := c as int;
    9 <= n <= 13 || 28 <= n <= 32 || n == 0x85 || n == 0xA0 || n == 0x1680 || 0x2000 <= n <= 0x200A
    || n == 0x2028 || n == 0x2029 || n == 0x202F || n == 0x205F || n == 0x3000
  }

  /** The ASCII characters that `strip` removes are the usual blanks and line ends and four separators; no printable one
      is among them. */
  lemma SpacesAre(c: char)
    ensures c in " \t\n\r" ==> IsSpace(c)
    ensures c as int < 128 && IsSpace(c) ==> c in " \t\n\r" || 11 <= c as int <= 12 || 28 <= c as int <= 31
  {
  }

  function StripLeft(s: string): string {
    if s != "" && IsSpace(s[0]) then StripLeft(s[1..]) else s
  }

  function StripRight(s: string): string {
    if s != "" && IsSpace(s[|s| - 1]) then StripRight(s[..|s| - 1]) else s
  }

  function Strip(s: string): string {
    StripRight(StripLeft(s))
  }

  predicate Blank(s: string) {
    forall i :: 0 <= i < |s| ==> IsSpace(s[i])
  }

  lemma {:induction false} StripLeftKeeps(s: string)
    ensures StripLeft(s) == "" <==> Blank(s)
    ensures StripLeft(s) != "" ==> !IsSpace(StripLeft(s)[0])
  {
    if s != "" && IsSpace(s[0]) {
      StripLeftKeeps(s[1..]);
      assert Blank(s[1..]) ==> Blank(s) by {
        if Blank(s[1..]) {
          forall i | 0 <= i < |s| ensures IsSpace(s[i]) { if i > 0 { assert s[i] == s[1..][i - 1]; } }
        }
      }
    }
  }

  lemma {:induction false} StripRightKeeps(s: string)
    ensures StripRight(s) <= s
    ensures StripRight(s) == "" <==> Blank(s)
  {
    if s != "" && IsSpace(s[|s| - 1]) {
      StripRightKeeps(s[..|s| - 1]);
    } else if s != "" {
      assert !Blank(s);
    }
  }

  /** Stripping leaves nothing exactly when every character is a space. */
  lemma {:induction false} StripEmptyIff(s: string)
    ensures Strip(s) == "" <==> Blank(s)
  {
    StripLeftKeeps(s);
    StripRightKeeps(StripLeft(s));
  }

  lemma {:induction false} StripKeepsTrimmed(s: string)
    requires s == "" || (!IsSpace(s[0]) && !IsSpace(s[|s| - 1]))
    ensures Strip(s) == s
  {
  }

  lemma {:induction false} StripIsTrimmed(s: string)
    ensures var t := Strip(s); t == "" || (!IsSpace(t[0]) && !IsSpace(t[|t| - 1]))
  {
    StripLeftKeeps(s);
    StripRightKeeps(StripLeft(s));
    StripRightEnds(StripLeft(s));
  }

  lemma {:induction false} StripRightEnds(s: string)
    ensures var t := StripRight(s); t == "" || !IsSpace(t[|t| - 1])
  {
    if s != "" && IsSpace(s[|s| - 1]) {
      StripRightEnds(s[..|s| - 1]);
    }
  }

  lemma StripTwice(s: string)
    ensures Strip(Strip(s)) == Strip(s)
  {
    StripIsTrimmed(s);
    StripKeepsTrimmed(Strip(s));
  }

  predicate StartsWith(s: string, prefix: string) {
    prefix <= s
  }

  predicate EndsWith(s: string, suffix: string) {
    |suffix| <= |s| && s[|s| - |suffix|..] == suffix
  }

  /** Python's `sub in s`. */
  predicate Contains(s: string, sub: string) {
    exists k :: 0 <= k <= |s| && OccursAt(s, sub, k)
  }

  predicate OccursAt(s: string, sub: string, k: int) {
    0 <= k <= |s| - |sub| && s[k..k + |sub|] == sub
  }

  /** ASCII case mapping; every token the scripts compare against is ASCII. */
  function Lower(s: string): string {
    seq(|s|, i requires 0 <= i < |s| => if 'A' <= s[i] <= 'Z' then (s[i] as int + 32) as char else s[i])
  }

  function Upper(s: string): string {
    seq(|s|, i requires 0 <= i < |s| => if 'a' <= s[i] <= 'z' then (s[i] as int - 32) as char else s[i])
  }

  /** Only letters change, to the letter of the other case. */
  lemma CaseIs(s: string)
    ensures |Lower(s)| == |s| && |Upper(s)| == |s|
    ensures forall i :: 0 <= i < |s| ==>
      !('A' <= Lower(s)[i] <= 'Z')
      && (Lower(s)[i] == s[i] || ('A' <= s[i] <= 'Z' && 'a' <= Lower(s)[i] && Lower(s)[i] - 'a' == s[i] - 'A'))
    ensures forall i :: 0 <= i < |s| ==>
      !('a' <= Upper(s)[i] <= 'z')
      && (Upper(s)[i] == s[i] || ('a' <= s[i] <= 'z' && 'A' <= Upper(s)[i] && Upper(s)[i] - 'A' == s[i] - 'a'))
  {
  }

  /** Python's `sep.join(parts)`. */
  function Join(parts: seq<string>, sep: string): string {
    if |parts| == 0 then "" else if |parts| == 1 then parts[0] else parts[0] + sep + Join(parts[1..], sep)
  }

  lemma Unsnoc<T>(xs: seq<T>)
    requires xs != []
    ensures xs == xs[..|xs| - 1] + [xs[|xs| - 1]]
  {
  }

  function Flatten<T>(parts: seq<seq<T>>): seq<T> {
    if parts == [] then [] else parts[0] + Flatten(parts[1..])
  }

  lemma {:induction false} FlattenAppend<T>(a: seq<seq<T>>, b: seq<seq<T>>)
    ensures Flatten(a + b) == Flatten(a) + Flatten(b)
  {
    if a == [] {
      assert a + b == b;
    } else {
      assert (a + b)[1..] == a[1..] + b;
      FlattenAppend(a[1..], b);
    }
  }

  lemma FlattenSnoc<T>(a: seq<seq<T>>, x: seq<T>)
    ensures Flatten(a + [x]) == Flatten(a) + x
  {
    FlattenAppend(a, [x]);
    assert Flatten([x]) == x + Flatten([]);
  }

  function FlatMap<T, U>(f: T -> seq<U>, xs: seq<T>): seq<U> {
    if xs == [] then [] else f(xs[0]) + FlatMap(f, xs[1..])
  }

  lemma {:induction false} FlatMapSnoc<T, U>(f: T -> seq<U>, xs: seq<T>, x: T)
    ensures FlatMap(f, xs + [x]) == FlatMap(f, xs) + f(x)
  {
    if xs == [] {
      assert [x][1..] == [] && [] + [x] == [x];
    } else {
      assert (xs + [x])[1..] == xs[1..] + [x];
      FlatMapSnoc(f, xs[1..], x);
    }
  }

  lemma {:induction false} InFlatMap<T, U>(f: T -> seq<U>, xs: seq<T>, y: U)
    ensures y in FlatMap(f, xs) <==> exists x :: x in xs && y in f(x)
  {
    if xs != [] {
      InFlatMap(f, xs[1..], y);
      assert xs == [xs[0]] + xs[1..];
    }
  }

  // ----- what a filtering loop gathers

  /** The items `at[0] < at[1] < ...` are those of the first `n` that are kept, and `ys` holds what fits each. */
  ghost predicate PicksAt<U>(n: nat, keep: nat -> bool, fits: (nat, U) -> bool, ys: seq<U>, at: seq<nat>) {
    |at| == |ys|
    && (forall j, k :: 0 <= j < k < |at| ==> at[j] < at[k])
    && (forall j :: 0 <= j < |at| ==> at[j] < n && keep(at[j]) && fits(at[j], ys[j]))
    && forall i: nat :: i < n && keep(i) ==> i in at
  }

  /** `ys` holds one element for each of the first `n` items that is kept, in their order, and nothing else. */
  ghost predicate Picks<U>(n: nat, keep: nat -> bool, fits: (nat, U) -> bool, ys: seq<U>) {
    exists at :: PicksAt(n, keep, fits, ys, at)
  }

  lemma PicksNone<U>(keep: nat -> bool, fits: (nat, U) -> bool)
    ensures Picks(0, keep, fits, [])
  {
    assert PicksAt(0, keep, fits, [], []);
  }

  lemma PicksNothing<U>(n: nat, keep: nat -> bool, fits: (nat, U) -> bool)
    requires forall i: nat :: i < n ==> !keep(i)
    ensures Picks(n, keep, fits, [])
  {
    assert PicksAt(n, keep, fits, [], []);
  }

  lemma PicksMore<U>(n: nat, keep: nat -> bool, fits: (nat, U) -> bool, ys: seq<U>, more: seq<U>)
    requires Picks(n, keep, fits, ys)
    requires if keep(n) then |more| == 1 && fits(n, more[0]) else more == []
    ensures Picks(n + 1, keep, fits, ys + more)
  {
    var at :| PicksAt(n, keep, fits, ys, at);
    if keep(n) {
      PicksAtMore(n, keep, fits, ys, more[0], at);
      assert more == [more[0]];
    } else {
      assert ys + more == ys;
      assert PicksAt(n + 1, keep, fits, ys, at);
    }
  }

  lemma PicksAtMore<U>(n: nat, keep: nat -> bool, fits: (nat, U) -> bool, ys: seq<U>, y: U, at: seq<nat>)
    requires PicksAt(n, keep, fits, ys, at) && keep(n) && fits(n, y)
    ensures PicksAt(n + 1, keep, fits, ys + [y], at + [n])
  {
    var all, next := at + [n], ys + [y];
    assert |all| == |next|;
    forall j, k | 0 <= j < k < |all| ensures all[j] < all[k] { assert all[j] == at[j] < n; }
    forall j | 0 <= j < |all| ensures all[j] < n + 1 && keep(all[j]) && fits(all[j], next[j]) {
      if j < |at| { assert all[j] == at[j] && next[j] == ys[j]; }
    }
    forall i: nat | i < n + 1 && keep(i) ensures i in all {
      if i < n { assert i in at; } else { assert all[|at|] == n; }
    }
  }

  /** An element is gathered exactly when some kept item has it, if only one element fits each. */
  lemma PickedIff<U(!new)>(n: nat, keep: nat -> bool, fits: (nat, U) -> bool, ys: seq<U>, y: U)
    requires Picks(n, keep, fits, ys) && forall i, a, b :: fits(i, a) && fits(i, b) ==> a == b
    ensures y in ys <==> exists i: nat :: i < n && keep(i) && fits(i, y)
  {
    var at :| PicksAt(n, keep, fits, ys, at);
    if y in ys {
      var j :| 0 <= j < |ys| && ys[j] == y;
      assert at[j] < n && keep(at[j]) && fits(at[j], y);
    }
    if i: nat :| i < n && keep(i) && fits(i, y) {
      var j :| 0 <= j < |at| && at[j] == i;
      assert fits(i, ys[j]);
    }
  }

  lemma PicksEmptyIff<U>(n: nat, keep: nat -> bool, fits: (nat, U) -> bool, ys: seq<U>)
    requires Picks(n, keep, fits, ys)
    ensures ys == [] <==> forall i: nat :: i < n ==> !keep(i)
  {
    var at :| PicksAt(n, keep, fits, ys, at);
    if i: nat :| i < n && keep(i) { assert i in at; }
    if ys != [] { assert keep(at[0]); }
  }
}
