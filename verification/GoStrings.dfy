/** The few functions of Go's `strings` and `strconv` packages the model relies on. */
module GoStrings {
  import opened Wrappers

  predicate HasPrefix(s: string, prefix: string) {
    prefix <= s
  }

  predicate OccursAt(s: string, sub: string, i: int) {
    0 <= i <= |s| - |sub| && s[i..][..|sub|] == sub
  }

  /** strings.Contains */
  predicate Contains(s: string, sub: string) {
    exists i | 0 <= i <= |s| :: OccursAt(s, sub, i)
  }

  function LowerChar(c: char): char {
    if 'A' <= c <= 'Z' then (c as int + 32) as char else c
  }

  /** strings.ToLower on ASCII text; other letters are left alone. */
  function ToLower(s: string): (r: string)
    ensures |r| == |s|
  {
    seq(|s|, i requires 0 <= i < |s| => LowerChar(s[i]))
  }

  /** No capital letter is left, and nothing but capital letters is changed. */
  lemma {:induction false} LoweredHasNoCapitals(s: string, i: nat)
    requires i < |s|
    ensures !('A' <= ToLower(s)[i] <= 'Z')
    ensures !('A' <= s[i] <= 'Z') ==> ToLower(s)[i] == s[i]
    ensures 'A' <= s[i] <= 'Z' ==> ToLower(s)[i] - 'a' == s[i] - 'A'
  {}

  lemma {:induction false} LowerTwice(s: string)
    ensures ToLower(ToLower(s)) == ToLower(s)
  {
    forall i | 0 <= i < |s| ensures ToLower(ToLower(s))[i] == ToLower(s)[i] {
      LoweredHasNoCapitals(s, i);
    }
  }

  predicate ContainsIgnoreCase(s: string, sub: string) {
    Contains(ToLower(s), ToLower(sub))
  }

  /** A text that wraps `sub` between two other texts contains it. */
  lemma {:induction false} WrapContains(before: string, sub: string, after: string)
    ensures Contains(before + sub + after, sub)
  {
    assert (before + sub + after)[|before|..][..|sub|] == sub;
    assert OccursAt(before + sub + after, sub, |before|);
  }

  /** strings.Split for a one-character separator. */
  function Split(s: string, sep: char): (parts: seq<string>)
    ensures |parts| > 0
  {
    if s == "" then [""]
    else
      var rest := Split(s[1..], sep);
      if s[0] == sep then [""] + rest else [[s[0]] + rest[0]] + rest[1..]
  }

  /** strings.Join for a one-character separator. */
  function Join(parts: seq<string>, sep: char): string
    requires |parts| > 0
  {
    if |parts| == 1 then parts[0] else parts[0] + [sep] + Join(parts[1..], sep)
  }

  lemma {:induction false} JoinSplit(s: string, sep: char)
    ensures Join(Split(s, sep), sep) == s
  {
    if s != "" {
      JoinSplit(s[1..], sep);
      var rest := Split(s[1..], sep);
      if s[0] == sep {
        assert ([""] + rest)[1..] == rest;
        assert s == [sep] + s[1..];
      } else {
        var parts := [[s[0]] + rest[0]] + rest[1..];
        assert parts[1..] == rest[1..];
        assert s == [s[0]] + s[1..];
      }
    }
  }

  lemma {:induction false} SplitJoin(parts: seq<string>, sep: char)
    requires |parts| > 0
    requires forall i | 0 <= i < |parts| :: sep !in parts[i]
    ensures Split(Join(parts, sep), sep) == parts
    decreases |parts|, |parts[0]|
  {
    var joined := Join(parts, sep);
    if parts[0] == "" {
      if |parts| > 1 {
        SplitJoin(parts[1..], sep);
        assert joined[1..] == Join(parts[1..], sep);
        assert parts == [""] + parts[1..];
      } else {
        assert parts == [""];
      }
    } else {
      var tail := [parts[0][1..]] + parts[1..];
      forall i | 0 <= i < |tail| ensures sep !in tail[i] {
        if i > 0 { assert tail[i] == parts[i]; }
      }
      SplitJoin(tail, sep);
      assert tail[1..] == parts[1..];
      assert joined[1..] == Join(tail, sep);
      assert joined[0] == parts[0][0] && joined[0] in parts[0];
      assert parts[0] == [joined[0]] + tail[0];
      assert parts == [parts[0]] + parts[1..];
    }
  }

  lemma {:induction false} SplitInjective(s: string, t: string, sep: char)
    requires Split(s, sep) == Split(t, sep)
    ensures s == t
  {
    JoinSplit(s, sep);
    JoinSplit(t, sep);
  }

  /** strings.SplitN(s, sep, 2), where None stands for a result of length one. */
  function Cut(s: string, sep: char): Option<(string, string)> {
    if s == "" then None
    else if s[0] == sep then Some(("", s[1..]))
    else match Cut(s[1..], sep)
      case None => None
      case Some((before, after)) => Some(([s[0]] + before, after))
  }

  /** Cutting undoes joining two texts with the separator as long as the first is free of it. */
  lemma {:induction false} CutUndoesJoin(before: string, after: string, sep: char)
    requires sep !in before
    ensures Cut(before + [sep] + after, sep) == Some((before, after))
  {
    var s := before + [sep] + after;
    if before != "" {
      assert before[0] in before;
      forall c | c in before[1..] ensures c in before {}
      CutUndoesJoin(before[1..], after, sep);
      assert s[1..] == before[1..] + [sep] + after;
      assert before == [before[0]] + before[1..];
    } else {
      assert s == [sep] + after;
      assert s[1..] == after;
    }
  }

  lemma {:induction false} JoinUndoesCut(s: string, sep: char)
    ensures match Cut(s, sep)
            case None => sep !in s
            case Some((before, after)) => sep !in before && s == before + [sep] + after
  {
    if s != "" && s[0] != sep {
      JoinUndoesCut(s[1..], sep);
      assert s == [s[0]] + s[1..];
    }
  }

  function DigitChar(d: nat): char
    requires d < 10
  {
    ('0' as int + d) as char
  }

  /** strconv.Itoa for the non-negative numbers the generators print. */
  function Itoa(n: nat): (s: string)
    ensures |s| > 0
    ensures forall i | 0 <= i < |s| :: '0' <= s[i] <= '9'
  {
    if n < 10 then [DigitChar(n)] else Itoa(n / 10) + [DigitChar(n % 10)]
  }

  function Atoi(s: string): int {
    if s == "" then 0 else 10 * Atoi(s[..|s| - 1]) + (s[|s| - 1] as int - '0' as int)
  }

  lemma {:induction false} AtoiItoa(n: nat)
    ensures Atoi(Itoa(n)) == n
  {
    if n >= 10 {
      AtoiItoa(n / 10);
      var s := Itoa(n);
      assert s[..|s| - 1] == Itoa(n / 10);
      assert n == 10 * (n / 10) + n % 10;
    } else {
      assert Itoa(n)[..0] == "";
    }
  }

  lemma {:induction false} ItoaInjective(m: nat, n: nat)
    requires Itoa(m) == Itoa(n)
    ensures m == n
  {
    AtoiItoa(m);
    AtoiItoa(n);
  }
}
