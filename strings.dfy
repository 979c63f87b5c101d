/** The string operations of the .NET base library that the plugin relies on,
    written out over `seq<char>`. Case folding is ASCII only: the keywords,
    tokens and identifiers the plugin compares are ASCII. */
module Strings {

  import opened Wrappers

  /** Upper-case ASCII letters folded to lower case, every other character kept. */
  function LowerChar(c: char): (r: char)
    ensures 'A' <= c <= 'Z' ==> r as int == c as int + 32
    ensures !('A' <= c <= 'Z') ==> r == c
  {
    if 'A' <= c <= 'Z' then (c as int + 32) as char else c
  }

  /** `String.ToLower()`, restricted to ASCII folding: the result holds no
      upper-case letter, and each character is either kept or is the lower-case
      form of an upper-case letter. */
  function Lower(s: string): (r: string)
    ensures |r| == |s|
    ensures forall i :: 0 <= i < |r| ==> !('A' <= r[i] <= 'Z')
    ensures forall i :: 0 <= i < |s| ==>
              r[i] == s[i] || ('A' <= s[i] <= 'Z' && r[i] as int == s[i] as int + 32)
    ensures forall i :: 0 <= i < |s| ==> r[i] == LowerChar(s[i])
  {
    seq(|s|, i requires 0 <= i < |s| => LowerChar(s[i]))
  }

  /** Lowering twice changes nothing more than lowering once. */
  lemma LowerIdempotent(s: string)
    ensures Lower(Lower(s)) == Lower(s)
  {
    assert forall i :: 0 <= i < |s| ==> LowerChar(LowerChar(s[i])) == LowerChar(s[i]);
  }

  /** `StringComparison.OrdinalIgnoreCase` equality. */
  predicate EqualsIgnoreCase(a: string, b: string)
  {
    Lower(a) == Lower(b)
  }

  predicate StartsWith(s: string, prefix: string)
  {
    |prefix| <= |s| && s[..|prefix|] == prefix
  }

  lemma StartsWithTrans(a: string, b: string, c: string)
    requires StartsWith(a, b) && StartsWith(b, c)
    ensures StartsWith(a, c)
  {
    assert a[..|c|] == a[..|b|][..|c|];
  }

  /** `s.Contains(sub)`: ordinal substring search, scanning from the left. */
  predicate Contains(s: string, sub: string)
    decreases |s|
  {
    |sub| <= |s| && (s[..|sub|] == sub || (s != [] && Contains(s[1..], sub)))
  }

  /** An occurrence of `sub` at position `i` of `s`. */
  predicate OccursAt(s: string, sub: string, i: int)
  {
    0 <= i && i + |sub| <= |s| && s[i..i + |sub|] == sub
  }

  /** The scan finds an occurrence exactly when one exists. */
  lemma {:induction false} ContainsIff(s: string, sub: string)
    ensures Contains(s, sub) <==> exists i :: OccursAt(s, sub, i)
    decreases |s|
  {
    if |sub| <= |s| && s[..|sub|] != sub && s != [] {
      ContainsIff(s[1..], sub);
      if Contains(s[1..], sub) {
        var i :| OccursAt(s[1..], sub, i);
        assert s[1..][i..i + |sub|] == s[i + 1..i + 1 + |sub|];
        assert OccursAt(s, sub, i + 1);
      } else if exists i :: OccursAt(s, sub, i) {
        var i :| OccursAt(s, sub, i);
        assert i != 0;
        assert s[1..][i - 1..i - 1 + |sub|] == s[i..i + |sub|];
        assert OccursAt(s[1..], sub, i - 1);
      }
    } else if |sub| <= |s| && s[..|sub|] == sub {
      assert OccursAt(s, sub, 0);
    }
  }

  /** A string lacking one of the characters of `sub` does not contain it. */
  lemma MissingCharNotContained(s: string, sub: string, c: char)
    requires c in sub && c !in s
    ensures !Contains(s, sub)
  {
    ContainsIff(s, sub);
  }

  /** `s.IndexOf(sub, StringComparison.OrdinalIgnoreCase) >= 0`. */
  predicate ContainsIgnoreCase(s: string, sub: string)
  {
    Contains(Lower(s), Lower(sub))
  }

  /** The characters `Char.IsWhiteSpace` accepts. */
  predicate IsWhiteSpace(c: char)
  {
    c == ' ' || ('\t' <= c <= '\r') || c == '\U{85}' || c == '\U{A0}' || c == '\U{1680}'
    || ('\U{2000}' <= c <= '\U{200A}') || c == '\U{2028}' || c == '\U{2029}'
    || c == '\U{202F}' || c == '\U{205F}' || c == '\U{3000}'
  }

  /** `String.IsNullOrWhiteSpace` of a non-null string. */
  predicate IsBlank(s: string)
  {
    forall i :: 0 <= i < |s| ==> IsWhiteSpace(s[i])
  }

  /** `String.IsNullOrWhiteSpace` of a string that may be null. */
  predicate IsNullOrBlank(s: Option<string>)
  {
    s.None? || IsBlank(s.value)
  }

  /** `String.Trim()`: leading and trailing white space removed. */
  function Trim(s: string): (r: string)
    ensures |r| <= |s|
    ensures r == [] || (!IsWhiteSpace(r[0]) && !IsWhiteSpace(r[|r| - 1]))
    ensures IsBlank(s) <==> r == []
    decreases |s|
  {
    if s == [] then []
    else if IsWhiteSpace(s[0]) then Trim(s[1..])
    else if IsWhiteSpace(s[|s| - 1]) then Trim(s[..|s| - 1])
    else s
  }

  /** `s[a..b]` is `s` with only white space removed at either end. */
  predicate MiddleOf(s: string, r: string, a: int, b: int)
  {
    0 <= a <= b <= |s| && r == s[a..b] && IsBlank(s[..a]) && IsBlank(s[b..])
  }

  /** A blank first character extends the removed start by one. */
  lemma BlankHead(s: string, r: string, a: int, b: int)
    requires s != [] && IsWhiteSpace(s[0]) && MiddleOf(s[1..], r, a, b)
    ensures MiddleOf(s, r, a + 1, b + 1)
  {
    assert s[1..][a..b] == s[a + 1..b + 1];
    assert s[..a + 1] == [s[0]] + s[1..][..a];
    assert s[b + 1..] == s[1..][b..];
  }

  /** A blank last character extends the removed end by one. */
  lemma BlankTail(s: string, r: string, a: int, b: int)
    requires s != [] && IsWhiteSpace(s[|s| - 1]) && MiddleOf(s[..|s| - 1], r, a, b)
    ensures MiddleOf(s, r, a, b)
  {
    var t := s[..|s| - 1];
    assert t[a..b] == s[a..b] && t[..a] == s[..a];
    assert s[b..] == t[b..] + [s[|s| - 1]];
  }

  /** Trimming keeps a middle slice of the string: what it removes at either end
      is white space, and nothing in between is touched. */
  lemma {:induction false} TrimKeepsMiddle(s: string)
    ensures exists a, b :: MiddleOf(s, Trim(s), a, b)
    decreases |s|
  {
    if s == [] {
      assert MiddleOf(s, Trim(s), 0, 0);
    } else if IsWhiteSpace(s[0]) {
      TrimKeepsMiddle(s[1..]);
      var a, b :| MiddleOf(s[1..], Trim(s[1..]), a, b);
      BlankHead(s, Trim(s[1..]), a, b);
      assert MiddleOf(s, Trim(s), a + 1, b + 1);
    } else if IsWhiteSpace(s[|s| - 1]) {
      TrimKeepsMiddle(s[..|s| - 1]);
      var a, b :| MiddleOf(s[..|s| - 1], Trim(s[..|s| - 1]), a, b);
      BlankTail(s, Trim(s[..|s| - 1]), a, b);
      assert MiddleOf(s, Trim(s), a, b);
    } else {
      assert MiddleOf(s, Trim(s), 0, |s|);
    }
  }

  /** The number of occurrences of `c` in `s`. */
  function CountChar(s: string, c: char): (n: nat)
    ensures n <= |s|
    ensures n == 0 <==> c !in s
    decreases |s|
  {
    if s == [] then 0 else (if s[0] == c then 1 else 0) + CountChar(s[1..], c)
  }

  /** `s.Split(c)`: every separator splits, empty pieces are kept, so the
      result always has one piece more than `s` has separators. */
  function Split(s: string, c: char): (r: seq<string>)
    ensures |r| >= 1
    decreases |s|
  {
    if s == [] then [[]]
    else
      var rest := Split(s[1..], c);
      if s[0] == c then [[]] + rest else [[s[0]] + rest[0]] + rest[1..]
  }

  /** The split has one piece more than `s` has separators, and no piece holds
      the separator. */
  lemma {:induction false} SplitShape(s: string, c: char)
    ensures |Split(s, c)| == CountChar(s, c) + 1
    ensures forall i :: 0 <= i < |Split(s, c)| ==> c !in Split(s, c)[i]
    decreases |s|
  {
    if s != [] {
      SplitShape(s[1..], c);
    }
  }

  /** `String.Join(c.ToString(), xs)`. */
  function Join(xs: seq<string>, c: char): string
    decreases |xs|
  {
    if xs == [] then []
    else if |xs| == 1 then xs[0]
    else xs[0] + [c] + Join(xs[1..], c)
  }

  /** Joining the pieces of a split restores the string. */
  lemma {:induction false} JoinSplit(s: string, c: char)
    ensures Join(Split(s, c), c) == s
    decreases |s|
  {
    if s != [] {
      var rest := Split(s[1..], c);
      JoinSplit(s[1..], c);
      if s[0] == c {
        assert Split(s, c) == [[]] + rest;
        assert ([[]] + rest)[1..] == rest;
        assert s == [c] + s[1..];
      } else {
        assert Split(s, c) == [[s[0]] + rest[0]] + rest[1..];
        if |rest| == 1 {
          assert s == [s[0]] + s[1..];
        } else {
          assert Join(rest, c) == rest[0] + [c] + Join(rest[1..], c);
          assert ([[s[0]] + rest[0]] + rest[1..])[1..] == rest[1..];
          assert s == [s[0]] + s[1..];
        }
      }
    }
  }

  /** The text before the first occurrence of `c` (all of `s` if none). */
  function TakeUntil(s: string, c: char): (r: string)
    ensures StartsWith(s, r)
    ensures c !in r
    ensures |r| < |s| ==> s[|r|] == c
    decreases |s|
  {
    if s == [] || s[0] == c then [] else [s[0]] + TakeUntil(s[1..], c)
  }

  /** The first piece of a split is the text before the first separator. */
  lemma {:induction false} SplitHead(s: string, c: char)
    ensures Split(s, c)[0] == TakeUntil(s, c)
    decreases |s|
  {
    if s != [] && s[0] != c {
      SplitHead(s[1..], c);
    }
  }

  /** A piece of a split holds only characters of the split string. */
  lemma {:induction false} SplitPiecesFrom(s: string, c: char, x: char)
    requires x !in s
    ensures forall i :: 0 <= i < |Split(s, c)| ==> x !in Split(s, c)[i]
    decreases |s|
  {
    if s != [] {
      SplitPiecesFrom(s[1..], c, x);
    }
  }

  /** Every character other than the separator lands in some piece. */
  lemma {:induction false} SplitPiecesCover(s: string, c: char, x: char)
    requires x in s && x != c
    ensures exists i :: 0 <= i < |Split(s, c)| && x in Split(s, c)[i]
    decreases |s|
  {
    var r := Split(s, c);
    if s[0] == x {
      assert x in r[0];
    } else {
      SplitPiecesCover(s[1..], c, x);
      var rest := Split(s[1..], c);
      var i :| 0 <= i < |rest| && x in rest[i];
      if s[0] == c {
        assert r[i + 1] == rest[i];
      } else if i == 0 {
        assert r[0] == [s[0]] + rest[0];
      } else {
        assert r[i] == rest[i];
      }
    }
  }

  /** A string without the separator splits into itself alone. */
  lemma {:induction false} SplitPiece(a: string, c: char)
    requires c !in a
    ensures Split(a, c) == [a]
    decreases |a|
  {
    if a != [] {
      SplitPiece(a[1..], c);
      assert [a[0]] + a[1..] == a;
    }
  }

  /** A piece without the separator, followed by the separator, is split off. */
  lemma {:induction false} SplitFront(a: string, b: string, c: char)
    requires c !in a
    ensures Split(a + [c] + b, c) == [a] + Split(b, c)
    decreases |a|
  {
    var s := a + [c] + b;
    if a == [] {
      assert s[0] == c && s[1..] == b;
    } else {
      assert s[1..] == a[1..] + [c] + b;
      SplitFront(a[1..], b, c);
      assert [a[0]] + a[1..] == a;
    }
  }

  /** Splitting a join gives the pieces back, provided there is at least one
      piece and none of them holds the separator. */
  lemma {:induction false} SplitJoin(xs: seq<string>, c: char)
    requires |xs| >= 1
    requires forall i :: 0 <= i < |xs| ==> c !in xs[i]
    ensures Split(Join(xs, c), c) == xs
    decreases |xs|
  {
    if |xs| == 1 {
      SplitPiece(xs[0], c);
    } else {
      SplitJoin(xs[1..], c);
      SplitFront(xs[0], Join(xs[1..], c), c);
      assert [xs[0]] + xs[1..] == xs;
    }
  }

  /** A join of several pieces is the join of a prefix, the separator, and the
      join of the rest. */
  lemma {:induction false} JoinAt(xs: seq<string>, k: nat, c: char)
    requires 0 < k < |xs|
    ensures Join(xs, c) == Join(xs[..k], c) + [c] + Join(xs[k..], c)
    decreases k
  {
    if k == 1 {
      assert xs[..1] == [xs[0]];
      assert xs[1..] == xs[k..];
    } else {
      JoinAt(xs[1..], k - 1, c);
      assert xs[1..][..k - 1] == xs[..k][1..];
      assert xs[1..][k - 1..] == xs[k..];
    }
  }

  /** `s.Replace(c.ToString(), "")`: every occurrence of one character removed. */
  function RemoveChar(s: string, c: char): (r: string)
    ensures c !in r
    ensures |r| == |s| - CountChar(s, c)
    ensures c !in s ==> r == s
    ensures forall x :: x != c ==> multiset(r)[x] == multiset(s)[x]
    decreases |s|
  {
    if s == [] then []
    else
      assert s == [s[0]] + s[1..];
      if s[0] == c then RemoveChar(s[1..], c)
      else [s[0]] + RemoveChar(s[1..], c)
  }

  /** Removal works piece by piece, so together with `RemoveChar([c], c) == []`
      and the untouched strings without `c` it keeps every other character in
      its order. */
  lemma {:induction false} RemoveCharAppend(a: string, b: string, c: char)
    ensures RemoveChar(a + b, c) == RemoveChar(a, c) + RemoveChar(b, c)
    ensures RemoveChar([c], c) == []
    decreases |a|
  {
    if a == [] {
      assert a + b == b;
    } else {
      assert (a + b)[1..] == a[1..] + b;
      RemoveCharAppend(a[1..], b, c);
    }
  }

  /** `s.Split(new[] { c.ToString() }, StringSplitOptions.RemoveEmptyEntries)`. */
  function SplitNonEmpty(s: string, c: char): (r: seq<string>)
  {
    NonEmptyStrings(Split(s, c))
  }

  /** The non-empty pieces, in order. */
  function NonEmptyStrings(xs: seq<string>): (r: seq<string>)
    ensures |r| <= |xs|
    ensures forall i :: 0 <= i < |r| ==> r[i] != []
    ensures forall i :: 0 <= i < |r| ==> r[i] in xs
    ensures forall x :: x in xs && x != [] ==> x in r
    decreases |xs|
  {
    if xs == [] then []
    else if xs[0] == [] then NonEmptyStrings(xs[1..])
    else [xs[0]] + NonEmptyStrings(xs[1..])
  }

  lemma {:induction false} NonEmptyStringsAppend(xs: seq<string>, ys: seq<string>)
    ensures NonEmptyStrings(xs + ys) == NonEmptyStrings(xs) + NonEmptyStrings(ys)
    decreases |xs|
  {
    if xs != [] {
      assert (xs + ys)[1..] == xs[1..] + ys;
      NonEmptyStringsAppend(xs[1..], ys);
    } else {
      assert xs + ys == ys;
    }
  }

  /** All the pieces run together. */
  function Concat(xs: seq<string>): string
    decreases |xs|
  {
    if xs == [] then [] else xs[0] + Concat(xs[1..])
  }

  lemma {:induction false} NonEmptyStringsConcat(xs: seq<string>)
    ensures Concat(NonEmptyStrings(xs)) == Concat(xs)
    decreases |xs|
  {
    if xs != [] {
      NonEmptyStringsConcat(xs[1..]);
    }
  }

  /** The pieces of a split run together are the string without its separators. */
  lemma {:induction false} SplitConcat(s: string, c: char)
    ensures Concat(Split(s, c)) == RemoveChar(s, c)
    decreases |s|
  {
    if s != [] {
      SplitConcat(s[1..], c);
      var rest := Split(s[1..], c);
      if s[0] == c {
        assert Split(s, c)[1..] == rest;
      } else {
        var r := Split(s, c);
        assert r[1..] == rest[1..];
        assert Concat(rest) == rest[0] + Concat(rest[1..]);
        assert Concat(r) == ([s[0]] + rest[0]) + Concat(rest[1..]);
      }
    }
  }

  /** What the segments of a menu section path mean: non-empty, free of the
      separator, and together exactly the non-separator characters. */
  lemma SplitNonEmptyFacts(s: string, c: char)
    ensures forall i :: 0 <= i < |SplitNonEmpty(s, c)| ==>
              SplitNonEmpty(s, c)[i] != [] && c !in SplitNonEmpty(s, c)[i]
    ensures Concat(SplitNonEmpty(s, c)) == RemoveChar(s, c)
  {
    SplitShape(s, c);
    NonEmptyStringsConcat(Split(s, c));
    SplitConcat(s, c);
  }

  /** Text equality, optionally ignoring ASCII case. */
  predicate SameText(a: string, b: string, ignoreCase: bool)
  {
    if ignoreCase then Lower(a) == Lower(b) else a == b
  }

  /** `search` occurs at the start of `s`. */
  predicate MatchesHere(s: string, search: string, ignoreCase: bool)
  {
    |search| <= |s| && SameText(s[..|search|], search, ignoreCase)
  }

  /** No occurrence of `search` starts before position `k` of `s`. */
  predicate NoMatchBefore(s: string, search: string, k: int, ignoreCase: bool)
  {
    forall i :: 0 <= i < k && i <= |s| ==> !MatchesHere(s[i..], search, ignoreCase)
  }

  /** Replace every occurrence of `search`, scanning left to right and resuming
      after each replacement, so replacements never overlap. With `ignoreCase`
      false this is `String.Replace`; with it true it is `Regex.Replace` on the
      escaped search text with `RegexOptions.IgnoreCase`. */
  function ReplaceAll(s: string, search: string, rep: string, ignoreCase: bool): string
    requires search != []
    decreases |s|
  {
    if |s| < |search| then s
    else if MatchesHere(s, search, ignoreCase) then rep + ReplaceAll(s[|search|..], search, rep, ignoreCase)
    else [s[0]] + ReplaceAll(s[1..], search, rep, ignoreCase)
  }

  /** A string in which `search` nowhere occurs comes back unchanged. */
  lemma {:induction false} ReplaceAbsent(s: string, search: string, rep: string, ignoreCase: bool)
    requires search != []
    requires NoMatchBefore(s, search, |s| + 1, ignoreCase)
    ensures ReplaceAll(s, search, rep, ignoreCase) == s
    decreases |s|
  {
    if |s| >= |search| {
      assert s[0..] == s;
      forall i | 0 <= i <= |s[1..]| ensures !MatchesHere(s[1..][i..], search, ignoreCase) {
        assert s[1..][i..] == s[i + 1..];
      }
      ReplaceAbsent(s[1..], search, rep, ignoreCase);
      assert [s[0]] + s[1..] == s;
    }
  }

  /** Lowering commutes with taking a slice. */
  lemma LowerSlice(s: string, a: int, b: int)
    requires 0 <= a <= b <= |s|
    ensures Lower(s[a..b]) == Lower(s)[a..b]
  {
  }

  /** `search` occurs in `s` under the comparison the replacement uses. */
  predicate Occurs(s: string, search: string, ignoreCase: bool)
  {
    if ignoreCase then ContainsIgnoreCase(s, search) else Contains(s, search)
  }

  /** A match at position `i` is an occurrence there. */
  lemma MatchIsOccurrence(s: string, search: string, i: int, ignoreCase: bool)
    requires 0 <= i <= |s|
    ensures MatchesHere(s[i..], search, ignoreCase) ==>
              if ignoreCase then OccursAt(Lower(s), Lower(search), i) else OccursAt(s, search, i)
  {
    if i + |search| <= |s| {
      assert s[i..][..|search|] == s[i..i + |search|];
      LowerSlice(s, i, i + |search|);
    }
  }

  /** Without an occurrence, no position matches. */
  lemma NoOccurrenceNoMatch(s: string, search: string, ignoreCase: bool)
    requires !Occurs(s, search, ignoreCase)
    ensures NoMatchBefore(s, search, |s| + 1, ignoreCase)
  {
    ContainsIff(s, search);
    ContainsIff(Lower(s), Lower(search));
    forall i | 0 <= i < |s| + 1 && i <= |s| ensures !MatchesHere(s[i..], search, ignoreCase) {
      MatchIsOccurrence(s, search, i, ignoreCase);
    }
  }

  /** A string in which `search` does not occur, in the sense of the
      comparison, comes back unchanged. */
  lemma ReplaceWithoutOccurrence(s: string, search: string, rep: string, ignoreCase: bool)
    requires search != [] && !Occurs(s, search, ignoreCase)
    ensures ReplaceAll(s, search, rep, ignoreCase) == s
  {
    NoOccurrenceNoMatch(s, search, ignoreCase);
    ReplaceAbsent(s, search, rep, ignoreCase);
  }

  /** An occurrence at the start, in whatever case the comparison allows, is
      replaced by `rep` verbatim. */
  lemma ReplaceAtStart(w: string, search: string, y: string, rep: string, ignoreCase: bool)
    requires search != [] && |w| == |search| && SameText(w, search, ignoreCase)
    ensures ReplaceAll(w + y, search, rep, ignoreCase) == rep + ReplaceAll(y, search, rep, ignoreCase)
  {
    var s := w + y;
    assert s[..|search|] == w;
    assert s[|search|..] == y;
  }

  /** A first character at which no occurrence starts is kept. */
  lemma ReplaceKeepsHead(s: string, search: string, rep: string, ignoreCase: bool)
    requires search != [] && |search| <= |s|
    requires !MatchesHere(s, search, ignoreCase)
    ensures ReplaceAll(s, search, rep, ignoreCase) == [s[0]] + ReplaceAll(s[1..], search, rep, ignoreCase)
  {
  }

  /** No occurrence starts at the first character of a non-empty prefix. */
  lemma NoMatchAtStart(x: string, z: string, search: string, ignoreCase: bool)
    requires x != []
    requires NoMatchBefore(x + z, search, |x|, ignoreCase)
    ensures !MatchesHere(x + z, search, ignoreCase)
  {
    assert (x + z)[0..] == x + z;
  }

  /** Dropping the first character of the prefix keeps the prefix free of
      occurrences. */
  lemma NoMatchBeforeTail(x: string, z: string, search: string, ignoreCase: bool)
    requires x != []
    requires NoMatchBefore(x + z, search, |x|, ignoreCase)
    ensures NoMatchBefore(x[1..] + z, search, |x| - 1, ignoreCase)
  {
    var s := x + z;
    var t := x[1..] + z;
    forall i | 0 <= i < |x| - 1 && i <= |t| ensures !MatchesHere(t[i..], search, ignoreCase) {
      assert t[i..] == s[i + 1..];
    }
  }

  /** A leading character at which no occurrence starts is kept. */
  lemma ConsKept(h: char, v: string, search: string, rep: string, ignoreCase: bool)
    requires search != [] && |search| <= |v| + 1
    requires !MatchesHere([h] + v, search, ignoreCase)
    ensures ReplaceAll([h] + v, search, rep, ignoreCase) == [h] + ReplaceAll(v, search, rep, ignoreCase)
  {
    assert ([h] + v)[1..] == v;
  }

  /** One step of the splicing: the prefix's first character is kept. */
  lemma ReplaceSplicesStep(x: string, z: string, search: string, out: string, rep: string, ignoreCase: bool)
    requires search != [] && x != [] && |search| <= |z|
    requires !MatchesHere(x + z, search, ignoreCase)
    requires ReplaceAll(x[1..] + z, search, rep, ignoreCase) == x[1..] + out
    ensures ReplaceAll(x + z, search, rep, ignoreCase) == x + out
  {
    var v := x[1..] + z;
    assert x + z == [x[0]] + v;
    ConsKept(x[0], v, search, rep, ignoreCase);
    assert [x[0]] + (x[1..] + out) == x + out;
  }

  /** A prefix in which no occurrence starts is copied in front of whatever the
      rest becomes. */
  lemma {:induction false} KeepPrefix(x: string, z: string, search: string, out: string, rep: string, ignoreCase: bool)
    requires search != [] && |search| <= |z|
    requires NoMatchBefore(x + z, search, |x|, ignoreCase)
    requires ReplaceAll(z, search, rep, ignoreCase) == out
    ensures ReplaceAll(x + z, search, rep, ignoreCase) == x + out
    decreases |x|
  {
    if x == [] {
      assert x + z == z && x + out == out;
    } else {
      NoMatchBeforeTail(x, z, search, ignoreCase);
      KeepPrefix(x[1..], z, search, out, rep, ignoreCase);
      NoMatchAtStart(x, z, search, ignoreCase);
      ReplaceSplicesStep(x, z, search, out, rep, ignoreCase);
    }
  }

  /** Replacement is literal splicing: a prefix in which no occurrence starts is
      kept as it is, and the first occurrence `w`, which equals `search` up to
      case when case is ignored, is replaced by `rep` verbatim. */
  lemma ReplaceSplices(x: string, w: string, y: string, search: string, rep: string, ignoreCase: bool)
    requires search != [] && |w| == |search| && SameText(w, search, ignoreCase)
    requires NoMatchBefore(x + w + y, search, |x|, ignoreCase)
    ensures ReplaceAll(x + w + y, search, rep, ignoreCase) == x + rep + ReplaceAll(y, search, rep, ignoreCase)
  {
    var tail := ReplaceAll(y, search, rep, ignoreCase);
    ReplaceAtStart(w, search, y, rep, ignoreCase);
    assert x + w + y == x + (w + y);
    KeepPrefix(x, w + y, search, rep + tail, rep, ignoreCase);
    assert x + (rep + tail) == x + rep + tail;
  }
}
