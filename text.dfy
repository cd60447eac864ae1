/** String operations the animation renderer relies on: Python's `str.split`
    with a one-character separator, `''.join`, and the decimal rendering of a
    natural number used in an f-string. */
module Text {

  /** `s.split(sep)`: the maximal runs of non-separator characters, in order;
      an empty string and a string ending in `sep` give a final empty piece. */
  function Split(s: string, sep: char): (pieces: seq<string>)
    ensures |pieces| >= 1
    decreases |s|
  {
    if |s| == 0 then [""]
    else
      var rest := Split(s[1..], sep);
      if s[0] == sep then [""] + rest
      else [[s[0]] + rest[0]] + rest[1..]
  }

  /** `''.join(pieces)`. */
  function Concat(pieces: seq<string>): (r: string)
    ensures forall ch :: ch in r <==> exists i :: 0 <= i < |pieces| && ch in pieces[i]
  {
    if |pieces| == 0 then "" else pieces[0] + Concat(pieces[1..])
  }

  /** `sep.join(pieces)`, the inverse of `Split`. */
  function JoinWith(pieces: seq<string>, sep: char): string
    requires |pieces| >= 1
  {
    if |pieces| == 1 then pieces[0] else pieces[0] + [sep] + JoinWith(pieces[1..], sep)
  }

  /** `s` with every occurrence of `c` deleted. */
  function Remove(s: string, c: char): (r: string)
    ensures c !in r
    ensures |r| <= |s|
  {
    if |s| == 0 then "" else (if s[0] == c then "" else [s[0]]) + Remove(s[1..], c)
  }

  /** Number of occurrences of `c` in `s`. */
  function Count(s: string, c: char): nat
  {
    if |s| == 0 then 0 else (if s[0] == c then 1 else 0) + Count(s[1..], c)
  }

  function StartsWith(s: string, prefix: string): bool
  {
    |prefix| <= |s| && s[..|prefix|] == prefix
  }

  /** Joining the pieces back with the separator gives the original string. */
  lemma {:induction false} JoinSplit(s: string, sep: char)
    ensures JoinWith(Split(s, sep), sep) == s
    decreases |s|
  {
    if |s| > 0 {
      var rest := Split(s[1..], sep);
      JoinSplit(s[1..], sep);
      if s[0] == sep {
        assert Split(s, sep) == [""] + rest;
        assert ([""] + rest)[1..] == rest;
      } else {
        var pieces := Split(s, sep);
        assert pieces == [[s[0]] + rest[0]] + rest[1..];
        if |rest| == 1 {
          assert pieces == [[s[0]] + rest[0]];
        } else {
          assert pieces[1..] == rest[1..];
          assert JoinWith(rest, sep) == rest[0] + [sep] + JoinWith(rest[1..], sep);
        }
      }
    }
  }

  /** There is one more piece than there are separators, and no piece holds one. */
  lemma {:induction false} SplitPieces(s: string, sep: char)
    ensures |Split(s, sep)| == Count(s, sep) + 1
    ensures forall p :: p in Split(s, sep) ==> sep !in p
    decreases |s|
  {
    if |s| > 0 {
      var rest := Split(s[1..], sep);
      SplitPieces(s[1..], sep);
      if s[0] != sep {
        var pieces := Split(s, sep);
        forall p | p in pieces ensures sep !in p {
          if p == [s[0]] + rest[0] {
            assert rest[0] in rest;
          } else {
            assert p in rest[1..];
          }
        }
      }
    }
  }

  lemma ConcatAppendFront(p: string, pieces: seq<string>)
    ensures Concat([p] + pieces) == p + Concat(pieces)
  {
    assert ([p] + pieces)[1..] == pieces;
  }

  /** `''.join(s.split(sep)[:-1])`: the pieces before the last separator,
      concatenated. */
  function AllButLast(s: string, sep: char): (r: string)
    ensures sep !in r
  {
    var pieces := Split(s, sep);
    SplitPieces(s, sep);
    Concat(pieces[..|pieces| - 1])
  }

  /** With no separator in `s` there is only one piece, so nothing is kept. */
  lemma NoSeparatorAllButLast(s: string, sep: char)
    requires sep !in s
    ensures AllButLast(s, sep) == ""
  {
    SplitPieces(s, sep);
    CountAbsent(s, sep);
  }

  lemma {:induction false} CountAbsent(s: string, c: char)
    ensures c !in s <==> Count(s, c) == 0
    decreases |s|
  {
    if |s| > 0 {
      CountAbsent(s[1..], c);
      assert s == [s[0]] + s[1..];
    }
  }

  /** A leading separator contributes an empty first piece and nothing else. */
  lemma AllButLastLeadingSeparator(s: string, sep: char)
    requires |s| > 0 && s[0] == sep
    ensures AllButLast(s, sep) == AllButLast(s[1..], sep)
  {
    var rest := Split(s[1..], sep);
    var pieces := Split(s, sep);
    assert pieces == [""] + rest;
    assert pieces[..|pieces| - 1] == [""] + rest[..|rest| - 1];
    ConcatAppendFront("", rest[..|rest| - 1]);
  }

  /** A leading ordinary character joins the first piece, which is kept when a
      separator follows somewhere. */
  lemma AllButLastLeadingChar(s: string, sep: char)
    requires |s| > 0 && s[0] != sep && sep in s[1..]
    ensures AllButLast(s, sep) == [s[0]] + AllButLast(s[1..], sep)
  {
    var rest := Split(s[1..], sep);
    var pieces := Split(s, sep);
    CountAbsent(s[1..], sep);
    SplitPieces(s[1..], sep);
    assert |rest| >= 2;
    assert pieces == [[s[0]] + rest[0]] + rest[1..];
    assert pieces[..|pieces| - 1] == [[s[0]] + rest[0]] + rest[1..|rest| - 1];
    ConcatAppendFront([s[0]] + rest[0], rest[1..|rest| - 1]);
    assert rest[..|rest| - 1] == [rest[0]] + rest[1..|rest| - 1];
    ConcatAppendFront(rest[0], rest[1..|rest| - 1]);
  }

  /** `''.join(s.split(sep)[:-1])` is the part of `s` before its last
      separator (at index `k`) with all the separators deleted. */
  lemma {:induction false} AllButLastIsPrefixWithoutSeparators(s: string, sep: char, k: nat)
    requires k < |s| && s[k] == sep && sep !in s[k + 1..]
    ensures AllButLast(s, sep) == Remove(s[..k], sep)
    decreases |s|
  {
    var t := s[1..];
    if k == 0 {
      assert t == s[k + 1..];
      AllButLastLeadingSeparator(s, sep);
      NoSeparatorAllButLast(t, sep);
    } else {
      assert t[k..] == s[k + 1..];
      assert t[k - 1] == sep;
      AllButLastIsPrefixWithoutSeparators(t, sep, k - 1);
      assert s[..k] == [s[0]] + t[..k - 1];
      assert s[..k][1..] == t[..k - 1];
      if s[0] == sep {
        AllButLastLeadingSeparator(s, sep);
      } else {
        AllButLastLeadingChar(s, sep);
      }
    }
  }

  predicate IsDigit(ch: char)
  {
    '0' <= ch <= '9'
  }

  function DigitChar(d: nat): (ch: char)
    requires d < 10
    ensures IsDigit(ch)
  {
    ('0' as int + d) as char
  }

  /** Python's `str(n)` for a non-negative integer: decimal digits without
      leading zeros. */
  function NatToString(n: nat): (s: string)
    ensures |s| >= 1
    ensures forall i :: 0 <= i < |s| ==> IsDigit(s[i])
    ensures n >= 10 ==> s[0] != '0'
  {
    if n < 10 then [DigitChar(n)] else NatToString(n / 10) + [DigitChar(n % 10)]
  }

  /** The value of a string of decimal digits. */
  function ParseNat(s: string): nat
    requires forall i :: 0 <= i < |s| ==> IsDigit(s[i])
  {
    if |s| == 0 then 0
    else
      assert IsDigit(s[|s| - 1]);
      ParseNat(s[..|s| - 1]) * 10 + (s[|s| - 1] as int - '0' as int)
  }

  /** Reading the decimal rendering back gives the number. */
  lemma {:induction false} ParseNatToString(n: nat)
    ensures ParseNat(NatToString(n)) == n
  {
    var s := NatToString(n);
    if n >= 10 {
      ParseNatToString(n / 10);
      assert s[..|s| - 1] == NatToString(n / 10);
    }
  }

  /** Different numbers render differently. */
  lemma NatToStringInjective(a: nat, b: nat)
    requires NatToString(a) == NatToString(b)
    ensures a == b
  {
    ParseNatToString(a);
    ParseNatToString(b);
  }
}
