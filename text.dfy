/** The string built-ins the source relies on (startsWith, endsWith, includes,
    split, replace with a run-matching regex, trim, toLowerCase, toUpperCase,
    Number#toString), each with a contract saying what its result is. */
module Text {
  import opened Seqs
  import opened Wrappers

  predicate StartsWith(s: string, p: string) {
    |p| <= |s| && s[..|p|] == p
  }

  predicate EndsWith(s: string, p: string) {
    |p| <= |s| && s[|s| - |p|..] == p
  }

  /** String#includes. */
  predicate Contains(s: string, p: string) {
    exists i :: 0 <= i <= |s| - |p| && StartsWith(s[i..], p)
  }

  /** A string that starts with `p` contains it. */
  lemma ContainsPrefix(s: string, p: string)
    requires StartsWith(s, p)
    ensures Contains(s, p)
  {
    assert s[0..] == s;
  }

  /** Containment survives adding text on either side. */
  lemma {:induction false} ContainsWithin(a: string, s: string, b: string, p: string)
    requires Contains(s, p)
    ensures Contains(a + s + b, p)
  {
    var i :| 0 <= i <= |s| - |p| && StartsWith(s[i..], p);
    var t := a + s + b;
    assert t[|a| + i..][..|p|] == s[i..][..|p|];
    assert StartsWith(t[|a| + i..], p);
  }

  /** `s.split(c)[0]`: the text before the first `c`, or all of `s`. */
  function UpToFirst(s: string, c: char): (r: string)
    ensures StartsWith(s, r)
    ensures c !in r
    ensures |r| < |s| ==> s[|r|] == c
    decreases |s|
  {
    if s == [] || s[0] == c then [] else [s[0]] + UpToFirst(s[1..], c)
  }

  /** `s.split(c).pop()`: the text after the last `c`, or all of `s`. */
  function AfterLast(s: string, c: char): (r: string)
    ensures EndsWith(s, r)
    ensures c !in r
    ensures |r| < |s| ==> s[|s| - |r| - 1] == c
    decreases |s|
  {
    if s == [] || s[|s| - 1] == c then []
    else AfterLast(s[..|s| - 1], c) + [s[|s| - 1]]
  }

  /** The characters JavaScript's `\s` matches (and String#trim removes). */
  predicate IsJsSpace(c: char) {
    c == ' ' || c == '\t' || c == '\n' || c == '\r' || c == '\U{000B}' || c == '\U{000C}'
    || c == '\U{00A0}' || c == '\U{1680}' || '\U{2000}' <= c <= '\U{200A}'
    || c == '\U{2028}' || c == '\U{2029}' || c == '\U{202F}' || c == '\U{205F}'
    || c == '\U{3000}' || c == '\U{FEFF}'
  }

  predicate IsAsciiLetter(c: char) {
    'a' <= c <= 'z' || 'A' <= c <= 'Z'
  }

  predicate IsDigit(c: char) {
    '0' <= c <= '9'
  }

  /** The class `[a-zA-Z0-9]`. */
  predicate IsAlnum(c: char) {
    IsAsciiLetter(c) || IsDigit(c)
  }

  function LowerChar(c: char): (r: char)
    ensures !('A' <= r <= 'Z')
    ensures 'a' <= c <= 'z' || !IsAsciiLetter(c) ==> r == c
  {
    if 'A' <= c <= 'Z' then (c as int + 32) as char else c
  }

  function UpperChar(c: char): (r: char)
    ensures !('a' <= r <= 'z')
    ensures 'A' <= c <= 'Z' || !IsAsciiLetter(c) ==> r == c
    ensures 'a' <= c <= 'z' ==> 'A' <= r <= 'Z'
  {
    if 'a' <= c <= 'z' then (c as int - 32) as char else c
  }

  /** String#toLowerCase on the ASCII letters. */
  function ToLower(s: string): (r: string)
    ensures |r| == |s|
    ensures forall i :: 0 <= i < |s| ==> r[i] == LowerChar(s[i])
  {
    MapSeq(s, LowerChar)
  }

  /** A string without upper-case ASCII letters is its own lower case. */
  lemma ToLowerIdentity(s: string)
    requires forall i :: 0 <= i < |s| ==> !('A' <= s[i] <= 'Z')
    ensures ToLower(s) == s
  {
  }

  /** `s.charAt(0).toUpperCase() + s.slice(1)`. */
  function Capitalize(s: string): (r: string)
    ensures |r| == |s|
    ensures s != [] ==> r[0] == UpperChar(s[0]) && r[1..] == s[1..]
  {
    if s == [] then [] else [UpperChar(s[0])] + s[1..]
  }

  /** `x || d` for an optional string: absent and '' are both falsy. */
  function OrElse(x: Option<string>, d: string): (r: string)
    ensures x.Some? && x.value != "" ==> r == x.value
    ensures x.None? || x.value == "" ==> r == d
  {
    if x.Some? && x.value != "" then x.value else d
  }

  /** Drops the leading characters that satisfy `isSep`. */
  function DropWhile(s: string, isSep: char -> bool): (r: string)
    ensures EndsWith(s, r)
    ensures r == [] || !isSep(r[0])
    ensures forall i :: 0 <= i < |s| - |r| ==> isSep(s[i])
    decreases |s|
  {
    if s == [] || !isSep(s[0]) then s
    else
      var r := DropWhile(s[1..], isSep);
      assert forall i :: 1 <= i < |s| - |r| ==> s[i] == s[1..][i - 1];
      assert s[|s| - |r|..] == s[1..][|s| - 1 - |r|..];
      r
  }

  /** Drops the trailing characters that satisfy `isSep`. */
  function DropWhileEnd(s: string, isSep: char -> bool): (r: string)
    ensures StartsWith(s, r)
    ensures r == [] || !isSep(r[|r| - 1])
    ensures forall i :: |r| <= i < |s| ==> isSep(s[i])
    decreases |s|
  {
    if s == [] || !isSep(s[|s| - 1]) then s
    else
      var r := DropWhileEnd(s[..|s| - 1], isSep);
      assert forall i :: |r| <= i < |s| - 1 ==> s[i] == s[..|s| - 1][i];
      assert s[..|r|] == s[..|s| - 1][..|r|];
      r
  }

  /** The characters a run-replacement neither removes nor introduces. */
  function Keeps(isSep: char -> bool, rep: char): char -> bool {
    c => !isSep(c) && c != rep
  }

  /** No two neighbouring characters both satisfy `isSep`. */
  predicate NoAdjacent(s: string, isSep: char -> bool) {
    forall i :: 0 <= i < |s| - 1 ==> !(isSep(s[i]) && isSep(s[i + 1]))
  }

  /** Filtering out a prefix of separators leaves what the rest keeps. */
  lemma {:induction false} KeepsDropWhile(s: string, isSep: char -> bool, rep: char)
    ensures Filter(s, Keeps(isSep, rep)) == Filter(DropWhile(s, isSep), Keeps(isSep, rep))
    decreases |s|
  {
    if s != [] && isSep(s[0]) {
      KeepsDropWhile(s[1..], isSep, rep);
    }
  }

  /** `s.replace(/<sep>+/g, rep)`: every maximal run of separators becomes one `rep`. */
  function ReplaceRuns(s: string, isSep: char -> bool, rep: char): (r: string)
    ensures r == [] <==> s == []
    ensures s != [] && isSep(s[0]) ==> r[0] == rep
    ensures s != [] && !isSep(s[0]) ==> r[0] == s[0]
    decreases |s|
  {
    if s == [] then []
    else if isSep(s[0]) then [rep] + ReplaceRuns(DropWhile(s, isSep), isSep, rep)
    else [s[0]] + ReplaceRuns(s[1..], isSep, rep)
  }

  /** After the replacement the only separator left is `rep` itself, and
      when `rep` is a separator no two of them stand side by side. */
  lemma {:induction false} ReplaceRunsSeparators(s: string, isSep: char -> bool, rep: char)
    ensures forall i :: 0 <= i < |ReplaceRuns(s, isSep, rep)| && isSep(ReplaceRuns(s, isSep, rep)[i])
              ==> ReplaceRuns(s, isSep, rep)[i] == rep
    ensures isSep(rep) ==> NoAdjacent(ReplaceRuns(s, isSep, rep), isSep)
    decreases |s|
  {
    if s != [] {
      var tail := if isSep(s[0]) then DropWhile(s, isSep) else s[1..];
      ReplaceRunsSeparators(tail, isSep, rep);
      var r, tr := ReplaceRuns(s, isSep, rep), ReplaceRuns(tail, isSep, rep);
      assert r == [if isSep(s[0]) then rep else s[0]] + tr;
      forall i | 0 <= i < |r| && isSep(r[i])
        ensures r[i] == rep
      {
        if i > 0 {
          assert r[i] == tr[i - 1];
        }
      }
    }
  }

  /** The replacement keeps every character that is neither a separator nor
      `rep`, in order. */
  lemma {:induction false} ReplaceRunsKeeps(s: string, isSep: char -> bool, rep: char)
    ensures Filter(ReplaceRuns(s, isSep, rep), Keeps(isSep, rep)) == Filter(s, Keeps(isSep, rep))
    decreases |s|
  {
    if s != [] {
      var k := Keeps(isSep, rep);
      if isSep(s[0]) {
        var tail := ReplaceRuns(DropWhile(s, isSep), isSep, rep);
        ReplaceRunsKeeps(DropWhile(s, isSep), isSep, rep);
        KeepsDropWhile(s, isSep, rep);
        FilterConcat([rep], tail, k);
      } else {
        var tail := ReplaceRuns(s[1..], isSep, rep);
        ReplaceRunsKeeps(s[1..], isSep, rep);
        assert s == [s[0]] + s[1..];
        FilterConcat([s[0]], tail, k);
        FilterConcat([s[0]], s[1..], k);
      }
    }
  }

  /** A string without separators is left as it is. */
  lemma {:induction false} ReplaceRunsIdentity(s: string, isSep: char -> bool, rep: char)
    requires forall i :: 0 <= i < |s| ==> !isSep(s[i])
    ensures ReplaceRuns(s, isSep, rep) == s
    decreases |s|
  {
    if s != [] {
      ReplaceRunsIdentity(s[1..], isSep, rep);
    }
  }

  /** Dropping leading separators from `a + b`, where `a` ends with a
      non-separator, only drops from `a`. */
  lemma {:induction false} DropWhileConcat(a: string, b: string, isSep: char -> bool)
    requires a != [] && !isSep(a[|a| - 1])
    ensures DropWhile(a + b, isSep) == DropWhile(a, isSep) + b
    decreases |a|
  {
    if isSep(a[0]) {
      assert (a + b)[1..] == a[1..] + b;
      DropWhileConcat(a[1..], b, isSep);
    }
  }

  /** A run of separators in front of `b` is dropped entirely. */
  lemma {:induction false} DropWhileRun(seps: string, b: string, isSep: char -> bool)
    requires forall i :: 0 <= i < |seps| ==> isSep(seps[i])
    requires b == [] || !isSep(b[0])
    ensures DropWhile(seps + b, isSep) == b
    decreases |seps|
  {
    if seps != [] {
      assert (seps + b)[1..] == seps[1..] + b;
      DropWhileRun(seps[1..], b, isSep);
    } else {
      assert seps + b == b;
    }
  }

  /** Regrouping a concatenation around a single separator. */
  lemma ConcatAround<T>(c: seq<T>, x: seq<T>, m: seq<T>, y: seq<T>)
    ensures c + (x + m + y) == c + x + m + y
  {
  }

  lemma ConcatAssoc<T>(x: seq<T>, y: seq<T>, z: seq<T>)
    ensures x + (y + z) == x + y + z
  {
  }

  /** The leading separators of `a + seps + b` are those of `a`. */
  lemma JoinAfterRun(a: string, seps: string, b: string, isSep: char -> bool)
    requires a != [] && !isSep(a[|a| - 1])
    ensures DropWhile(a + seps + b, isSep) == DropWhile(a, isSep) + seps + b
  {
    ConcatAssoc(a, seps, b);
    DropWhileConcat(a, seps + b, isSep);
    ConcatAssoc(DropWhile(a, isSep), seps, b);
  }

  /** Unfolding the replacement at a leading non-separator. */
  lemma ReplaceRunsKeep(c: char, t: string, isSep: char -> bool, rep: char)
    requires !isSep(c)
    ensures ReplaceRuns([c] + t, isSep, rep) == [c] + ReplaceRuns(t, isSep, rep)
  {
    assert ([c] + t)[1..] == t;
  }

  /** A maximal run of separators between `a` and `b`, however long,
      becomes exactly one `rep`, and the two sides are replaced on their own. */
  lemma {:induction false} ReplaceRunsJoin(a: string, seps: string, b: string, isSep: char -> bool, rep: char)
    requires seps != [] && forall i :: 0 <= i < |seps| ==> isSep(seps[i])
    requires a == [] || !isSep(a[|a| - 1])
    requires b == [] || !isSep(b[0])
    ensures ReplaceRuns(a + seps + b, isSep, rep) == ReplaceRuns(a, isSep, rep) + [rep] + ReplaceRuns(b, isSep, rep)
    decreases |a|
  {
    if a == [] {
      assert a + seps + b == seps + b;
      DropWhileRun(seps, b, isSep);
      assert ReplaceRuns(seps + b, isSep, rep) == [rep] + ReplaceRuns(b, isSep, rep);
    } else if !isSep(a[0]) {
      ReplaceRunsJoin(a[1..], seps, b, isSep, rep);
      JoinStep(a, seps, b, isSep, rep);
    } else {
      var d := DropWhile(a, isSep);
      assert d != [];
      assert d[|d| - 1] == a[|a| - 1] && |d| < |a| by {
        assert a[|a| - |d|..] == d;
      }
      ReplaceRunsJoin(d, seps, b, isSep, rep);
      JoinSkip(a, seps, b, isSep, rep);
    }
  }

  lemma JoinStep(a: string, seps: string, b: string, isSep: char -> bool, rep: char)
    requires a != [] && !isSep(a[0])
    requires ReplaceRuns(a[1..] + seps + b, isSep, rep) == ReplaceRuns(a[1..], isSep, rep) + [rep] + ReplaceRuns(b, isSep, rep)
    ensures ReplaceRuns(a + seps + b, isSep, rep) == ReplaceRuns(a, isSep, rep) + [rep] + ReplaceRuns(b, isSep, rep)
  {
    ConcatAround([a[0]], a[1..], seps, b);
    assert [a[0]] + a[1..] == a;
    ReplaceRunsKeep(a[0], a[1..] + seps + b, isSep, rep);
    ReplaceRunsKeep(a[0], a[1..], isSep, rep);
    ConcatAround([a[0]], ReplaceRuns(a[1..], isSep, rep), [rep], ReplaceRuns(b, isSep, rep));
  }

  lemma JoinSkip(a: string, seps: string, b: string, isSep: char -> bool, rep: char)
    requires a != [] && isSep(a[0]) && !isSep(a[|a| - 1])
    requires ReplaceRuns(DropWhile(a, isSep) + seps + b, isSep, rep)
          == ReplaceRuns(DropWhile(a, isSep), isSep, rep) + [rep] + ReplaceRuns(b, isSep, rep)
    ensures ReplaceRuns(a + seps + b, isSep, rep) == ReplaceRuns(a, isSep, rep) + [rep] + ReplaceRuns(b, isSep, rep)
  {
    JoinAfterRun(a, seps, b, isSep);
    assert (a + seps + b)[0] == a[0];
    ConcatAround([rep], ReplaceRuns(DropWhile(a, isSep), isSep, rep), [rep], ReplaceRuns(b, isSep, rep));
  }

  /** String#trim, for the separators `isSep`. */
  function Trim(s: string, isSep: char -> bool): (r: string)
    ensures r == [] || (!isSep(r[0]) && !isSep(r[|r| - 1]))
    ensures exists i, j :: 0 <= i <= j <= |s| && r == s[i..j]
    ensures forall c :: c in r ==> c in s
    ensures NoAdjacent(s, isSep) ==> NoAdjacent(r, isSep)
  {
    var front := DropWhile(s, isSep);
    var r := DropWhileEnd(front, isSep);
    assert r == s[|s| - |front|..][..|r|];
    assert r == s[|s| - |front|..|s| - |front| + |r|];
    r
  }

  function DigitChar(d: nat): (c: char)
    requires d < 10
    ensures IsDigit(c)
  {
    ('0' as int + d) as char
  }

  /** Number#toString for a non-negative integer: its decimal digits. */
  function NatToString(n: nat): (r: string)
    ensures r != []
    ensures forall i :: 0 <= i < |r| ==> IsDigit(r[i])
    decreases n
  {
    if n < 10 then [DigitChar(n)] else NatToString(n / 10) + [DigitChar(n % 10)]
  }

  /** Number#toString for an integer: a '-' before the digits when negative. */
  function IntToString(n: int): (r: string)
    ensures r != [] && (n < 0 <==> r[0] == '-')
    ensures forall i :: 0 <= i < |r| ==> IsDigit(r[i]) || (i == 0 && r[i] == '-')
  {
    if n < 0 then "-" + NatToString(-n) else NatToString(n)
  }

  /** The value of a string of decimal digits. */
  function DigitsValue(s: string): nat
    requires forall i :: 0 <= i < |s| ==> IsDigit(s[i])
    decreases |s|
  {
    if s == [] then 0
    else
      assert IsDigit(s[|s| - 1]);
      DigitsValue(s[..|s| - 1]) * 10 + (s[|s| - 1] as int - '0' as int)
  }

  /** NatToString is inverted by reading the digits back. */
  lemma {:induction false} NatToStringRoundTrip(n: nat)
    ensures DigitsValue(NatToString(n)) == n
    decreases n
  {
    if n >= 10 {
      NatToStringRoundTrip(n / 10);
      var s := NatToString(n);
      assert s[..|s| - 1] == NatToString(n / 10);
    }
  }

  /** Code-point lexicographic order on strings (the ORDER BY on a text column). */
  predicate StrLe(a: string, b: string)
    decreases |a|
  {
    a == [] || (b != [] && (a[0] < b[0] || (a[0] == b[0] && StrLe(a[1..], b[1..]))))
  }

  /** Any two strings are ordered one way or the other. */
  lemma {:induction false} StrLeTotal(a: string, b: string)
    ensures StrLe(a, b) || StrLe(b, a)
    decreases |a|
  {
    if a != [] && b != [] && a[0] == b[0] {
      StrLeTotal(a[1..], b[1..]);
    }
  }

  /** Splitting at the first `c` of `a + [c] + b`, with no `c` in `a`, gives `a`. */
  lemma {:induction false} UpToFirstConcat(a: string, c: char, b: string)
    requires c !in a
    ensures UpToFirst(a + [c] + b, c) == a
    decreases |a|
  {
    if a != [] {
      assert (a + [c] + b)[1..] == a[1..] + [c] + b;
      UpToFirstConcat(a[1..], c, b);
    }
  }

  /** The text after the last `c` of `a + [c] + b`, with no `c` in `b`, is `b`. */
  lemma {:induction false} AfterLastConcat(a: string, c: char, b: string)
    requires c !in b
    ensures AfterLast(a + [c] + b, c) == b
    decreases |b|
  {
    if b != [] {
      var s := a + [c] + b;
      assert s[..|s| - 1] == a + [c] + b[..|b| - 1];
      AfterLastConcat(a, c, b[..|b| - 1]);
    }
  }

  /** A string without `c` is its own text before the first `c`. */
  lemma {:induction false} UpToFirstAbsent(s: string, c: char)
    requires c !in s
    ensures UpToFirst(s, c) == s
    decreases |s|
  {
    if s != [] {
      UpToFirstAbsent(s[1..], c);
    }
  }

  /** A string without `c` is its own text after the last `c`. */
  lemma {:induction false} AfterLastAbsent(s: string, c: char)
    requires c !in s
    ensures AfterLast(s, c) == s
    decreases |s|
  {
    if s != [] {
      AfterLastAbsent(s[..|s| - 1], c);
    }
  }

  /** Every character of a run-replacement is `rep` or comes from `s`. */
  lemma {:induction false} ReplaceRunsChars(s: string, isSep: char -> bool, rep: char)
    ensures forall i :: 0 <= i < |ReplaceRuns(s, isSep, rep)| ==>
      ReplaceRuns(s, isSep, rep)[i] == rep || ReplaceRuns(s, isSep, rep)[i] in s
    decreases |s|
  {
    if s != [] {
      var tail := if isSep(s[0]) then DropWhile(s, isSep) else s[1..];
      ReplaceRunsChars(tail, isSep, rep);
      var r, tr := ReplaceRuns(s, isSep, rep), ReplaceRuns(tail, isSep, rep);
      assert r == [if isSep(s[0]) then rep else s[0]] + tr;
      assert forall x :: x in tail ==> x in s;
      forall i | 0 <= i < |r|
        ensures r[i] == rep || r[i] in s
      {
        if i > 0 {
          assert r[i] == tr[i - 1];
        }
      }
    }
  }

  /** Dropping trailing separators keeps what the run-replacement keeps. */
  lemma KeepsDropWhileEnd(s: string, isSep: char -> bool, rep: char)
    ensures Filter(s, Keeps(isSep, rep)) == Filter(DropWhileEnd(s, isSep), Keeps(isSep, rep))
  {
    var k := Keeps(isSep, rep);
    var r := DropWhileEnd(s, isSep);
    var rest := s[|r|..];
    assert s == r + rest;
    FilterConcat(r, rest, k);
    assert forall i :: 0 <= i < |rest| ==> !k(rest[i]) by {
      forall i | 0 <= i < |rest| ensures !k(rest[i]) {
        assert rest[i] == s[|r| + i];
      }
    }
    FilterNone(rest, k);
  }

  /** Trimming removes only separators, so what the run-replacement keeps
      survives it. */
  lemma TrimKeeps(s: string, isSep: char -> bool, rep: char)
    ensures Filter(Trim(s, isSep), Keeps(isSep, rep)) == Filter(s, Keeps(isSep, rep))
  {
    KeepsDropWhile(s, isSep, rep);
    KeepsDropWhileEnd(DropWhile(s, isSep), isSep, rep);
  }
}
