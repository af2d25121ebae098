/**
 * The few pieces of `java.lang.String`, `Integer` and `java.util.Scanner`
 * behaviour that the level codec relies on, over `string` = `seq<char>`.
 */
module Text {
  import opened Wrappers

  /** The largest and the smallest value of a Java `int`. */
  const IntMax: int := 0x7fff_ffff
  const IntMin: int := -0x8000_0000

  predicate IsDigit(c: char) {
    '0' <= c <= '9'
  }

  predicate AllDigits(s: string) {
    forall k :: 0 <= k < |s| ==> IsDigit(s[k])
  }

  function DigitChar(d: nat): (c: char)
    requires d < 10
    ensures IsDigit(c) && c as int - '0' as int == d
  {
    ('0' as int + d) as char
  }

  /** The number that a string of decimal digits denotes. */
  function DigitsValue(s: string): nat
    requires AllDigits(s)
    decreases |s|
  {
    if s == [] then 0 else DigitsValue(s[..|s| - 1]) * 10 + (s[|s| - 1] as int - '0' as int)
  }

  /** The decimal text of a natural number, as `StringBuilder.append(int)` writes it. */
  function NatToString(n: nat): (s: string)
    ensures |s| >= 1 && AllDigits(s)
    ensures DigitsValue(s) == n
    decreases n
  {
    if n < 10 then [DigitChar(n)]
    else
      var prefix := NatToString(n / 10);
      var s := prefix + [DigitChar(n % 10)];
      assert s[..|s| - 1] == prefix;
      s
  }

  /** The decimal text Java writes for an `int`: a minus sign before the digits of a negative value. */
  function IntToString(i: int): (s: string)
    ensures i >= 0 ==> s == NatToString(i)
  {
    if i < 0 then "-" + NatToString(-i) else NatToString(i)
  }

  /**
   * `Integer.parseInt` (also `Integer.valueOf`): an optional sign followed by at
   * least one digit, whose value fits in a Java `int`. `None` stands for the
   * `NumberFormatException` Java throws on anything else.
   */
  function ParseInt(s: string): (r: Option<int>)
    ensures r.Some? ==> IntMin <= r.value <= IntMax
    ensures r.Some? ==> |s| >= 1 && (AllDigits(s) || AllDigits(s[1..]))
  {
    var signed := |s| > 0 && (s[0] == '-' || s[0] == '+');
    var digits := if signed then s[1..] else s;
    if |digits| == 0 || !AllDigits(digits) then None
    else
      var v: int := if signed && s[0] == '-' then -(DigitsValue(digits) as int) else DigitsValue(digits);
      if IntMin <= v <= IntMax then Some(v) else None
  }

  /** Printing a number that fits in a Java `int` and parsing it back gives the number. */
  lemma ParseIntOfNatToString(n: nat)
    requires n <= IntMax
    ensures ParseInt(NatToString(n)) == Some(n)
  {
    var s := NatToString(n);
    assert IsDigit(s[0]);
  }

  /** `s.replaceAll("[^0-9]", "")`: the decimal digits of `s`, in order. */
  function DigitsOf(s: string): (r: string)
    ensures AllDigits(r) && |r| <= |s|
    decreases |s|
  {
    if s == [] then ""
    else if IsDigit(s[0]) then [s[0]] + DigitsOf(s[1..])
    else DigitsOf(s[1..])
  }

  /** The pieces `ts` glued together with `sep` between consecutive ones. */
  function Join(ts: seq<string>, sep: string): string
    decreases |ts|
  {
    if |ts| == 0 then ""
    else if |ts| == 1 then ts[0]
    else ts[0] + sep + Join(ts[1..], sep)
  }

  /** Gluing one more piece on the end adds one separator and the piece. */
  lemma {:induction false} JoinAppend(ts: seq<string>, t: string, sep: string)
    requires |ts| >= 1
    ensures Join(ts + [t], sep) == Join(ts, sep) + sep + t
    decreases |ts|
  {
    if |ts| == 1 {
      assert (ts + [t])[1..] == [t];
    } else {
      JoinAppend(ts[1..], t, sep);
      assert (ts + [t])[1..] == ts[1..] + [t];
    }
  }

  /** Gluing two runs of pieces glues each run and puts one more separator between them. */
  lemma {:induction false} JoinConcat(a: seq<string>, b: seq<string>, sep: string)
    requires |a| >= 1 && |b| >= 1
    ensures Join(a + b, sep) == Join(a, sep) + sep + Join(b, sep)
    decreases |b|
  {
    var last := b[|b| - 1];
    if |b| == 1 {
      assert b == [last];
      JoinAppend(a, last, sep);
    } else {
      var front := b[..|b| - 1];
      JoinConcat(a, front, sep);
      assert a + b == (a + front) + [last];
      JoinAppend(a + front, last, sep);
      assert b == front + [last];
      JoinAppend(front, last, sep);
    }
  }

  /** A character in neither the pieces nor the separator is not in the glued text. */
  lemma {:induction false} JoinWithout(ts: seq<string>, sep: string, c: char)
    requires c !in sep && forall k :: 0 <= k < |ts| ==> c !in ts[k]
    ensures c !in Join(ts, sep)
    decreases |ts|
  {
    if |ts| > 1 {
      JoinWithout(ts[1..], sep, c);
    }
  }

  /** The digits of two texts one after the other are the digits of each. */
  lemma {:induction false} DigitsOfConcat(a: string, b: string)
    ensures DigitsOf(a + b) == DigitsOf(a) + DigitsOf(b)
    decreases |a|
  {
    if a != [] {
      assert (a + b)[1..] == a[1..] + b;
      DigitsOfConcat(a[1..], b);
    } else {
      assert a + b == b;
    }
  }

  /** A text without digits has no digits. */
  lemma {:induction false} DigitsOfNone(s: string)
    requires forall k :: 0 <= k < |s| ==> !IsDigit(s[k])
    ensures DigitsOf(s) == ""
    decreases |s|
  {
    if s != [] {
      DigitsOfNone(s[1..]);
    }
  }

  /** A text of digits only is its own digits. */
  lemma {:induction false} DigitsOfDigits(s: string)
    requires AllDigits(s)
    ensures DigitsOf(s) == s
    decreases |s|
  {
    if s != [] {
      DigitsOfDigits(s[1..]);
      assert [s[0]] + s[1..] == s;
    }
  }

  /**
   * The pieces of `s` between occurrences of `sep`: `k` separators give `k + 1`
   * pieces, none of which contains `sep`, and gluing them back gives `s`.
   */
  function Fields(s: string, sep: char): (r: seq<string>)
    ensures |r| >= 1
    ensures forall k :: 0 <= k < |r| ==> sep !in r[k]
    ensures Join(r, [sep]) == s
    decreases |s|
  {
    if s == [] then [""]
    else
      var rest := Fields(s[1..], sep);
      if s[0] == sep then
        assert s == [sep] + s[1..];
        [""] + rest
      else
        var r := [[s[0]] + rest[0]] + rest[1..];
        assert r[1..] == rest[1..];
        assert s == [s[0]] + s[1..];
        r
  }

  /** Cutting `a + [sep] + b` at `sep`, where `a` holds no `sep`, gives `a` first. */
  lemma {:induction false} FieldsAfter(a: string, b: string, sep: char)
    requires sep !in a
    ensures Fields(a + [sep] + b, sep) == [a] + Fields(b, sep)
    decreases |a|
  {
    if a == [] {
      assert a + [sep] + b == [sep] + b;
      assert ([sep] + b)[1..] == b;
    } else {
      FieldsAfter(a[1..], b, sep);
      assert (a + [sep] + b)[1..] == a[1..] + [sep] + b;
      assert [a[0]] + a[1..] == a;
    }
  }

  /** A string without `sep` is a single piece. */
  lemma {:induction false} FieldsOfPiece(a: string, sep: char)
    requires sep !in a
    ensures Fields(a, sep) == [a]
    decreases |a|
  {
    if a != [] {
      FieldsOfPiece(a[1..], sep);
      assert [a[0]] + a[1..] == a;
    }
  }

  /** Cutting at `sep` undoes gluing with `sep`, when no piece holds `sep`. */
  lemma {:induction false} FieldsOfJoin(ts: seq<string>, sep: char)
    requires |ts| >= 1
    requires forall k :: 0 <= k < |ts| ==> sep !in ts[k]
    ensures Fields(Join(ts, [sep]), sep) == ts
    decreases |ts|
  {
    if |ts| == 1 {
      FieldsOfPiece(ts[0], sep);
    } else {
      FieldsOfJoin(ts[1..], sep);
      FieldsAfter(ts[0], Join(ts[1..], [sep]), sep);
      assert [ts[0]] + ts[1..] == ts;
    }
  }

  /** The empty pieces at the end removed. */
  function DropTrailingEmpty(ts: seq<string>): (r: seq<string>)
    ensures |r| <= |ts| && r == ts[..|r|]
    ensures |r| > 0 ==> r[|r| - 1] != ""
    ensures forall k :: |r| <= k < |ts| ==> ts[k] == ""
    decreases |ts|
  {
    if |ts| > 0 && ts[|ts| - 1] == "" then DropTrailingEmpty(ts[..|ts| - 1]) else ts
  }

  /**
   * `s.split(" ")`: the pieces between spaces with the empty pieces at the end
   * removed, or `[s]` itself when `s` holds no space.
   */
  function SplitOnSpace(s: string): (r: seq<string>)
    ensures forall k :: 0 <= k < |r| ==> ' ' !in r[k]
  {
    if ' ' !in s then [s] else DropTrailingEmpty(Fields(s, ' '))
  }

  /** Splitting at spaces undoes joining with one space, when every piece is a non-empty word. */
  lemma SplitOnSpaceOfJoin(ts: seq<string>)
    requires |ts| >= 1
    requires forall k :: 0 <= k < |ts| ==> ts[k] != "" && ' ' !in ts[k]
    ensures SplitOnSpace(Join(ts, " ")) == ts
  {
    FieldsOfJoin(ts, ' ');
    if ' ' !in Join(ts, " ") {
      FieldsOfPiece(Join(ts, " "), ' ');
    }
  }

  /** The text a writer produces when it ends each of `ls` with a line feed. */
  function Unlines(ls: seq<string>): string
    decreases |ls|
  {
    if ls == [] then "" else ls[0] + "\n" + Unlines(ls[1..])
  }

  /** The first `i + 1` lines are the first `i` and then line `i`. */
  lemma UnlinesPrefix(ls: seq<string>, i: nat)
    requires i < |ls|
    ensures Unlines(ls[..i + 1]) == Unlines(ls[..i]) + ls[i] + "\n"
  {
    assert ls[..i + 1] == ls[..i] + [ls[i]];
    UnlinesAppend(ls[..i], ls[i]);
  }

  /** Writing one more line after the others. */
  lemma {:induction false} UnlinesAppend(ls: seq<string>, l: string)
    ensures Unlines(ls + [l]) == Unlines(ls) + l + "\n"
    decreases |ls|
  {
    if ls == [] {
      assert [l][1..] == [];
    } else {
      assert (ls + [l])[1..] == ls[1..] + [l];
      UnlinesAppend(ls[1..], l);
    }
  }

  /** Each piece followed by `sep`. */
  function Terminated(ts: seq<string>, sep: string): string
    decreases |ts|
  {
    if ts == [] then "" else Terminated(ts[..|ts| - 1], sep) + ts[|ts| - 1] + sep
  }

  /** One more piece, followed by the separator. */
  lemma TerminatedStep(ts: seq<string>, j: nat, sep: string)
    requires j < |ts|
    ensures Terminated(ts[..j + 1], sep) == Terminated(ts[..j], sep) + ts[j] + sep
  {
    assert ts[..j + 1][..j] == ts[..j];
  }

  /** Joining is writing every piece but the last followed by the separator, then the last. */
  lemma {:induction false} JoinIsTerminated(ts: seq<string>, sep: string)
    requires |ts| >= 1
    ensures Join(ts, sep) == Terminated(ts[..|ts| - 1], sep) + ts[|ts| - 1]
    decreases |ts|
  {
    if |ts| > 1 {
      var front := ts[..|ts| - 1];
      JoinIsTerminated(front, sep);
      assert front[..|front| - 1] == ts[..|ts| - 2];
      assert ts == front + [ts[|ts| - 1]];
      JoinAppend(front, ts[|ts| - 1], sep);
    }
  }

  /**
   * The lines that successive `Scanner.nextLine` calls return for `s`, for text
   * whose only line terminator is the line feed: a final line feed does not
   * start another line, and the empty text has no line.
   */
  function Lines(s: string): seq<string> {
    var f := Fields(s, '\n');
    if f[|f| - 1] == "" then f[..|f| - 1] else f
  }

  lemma {:induction false} FieldsOfUnlines(ls: seq<string>)
    requires forall k :: 0 <= k < |ls| ==> '\n' !in ls[k]
    ensures Fields(Unlines(ls), '\n') == ls + [""]
    decreases |ls|
  {
    if ls != [] {
      FieldsOfUnlines(ls[1..]);
      FieldsAfter(ls[0], Unlines(ls[1..]), '\n');
      assert [ls[0]] + ls[1..] == ls;
    }
  }

  /** Reading back the lines of written text gives the lines that were written. */
  lemma LinesOfUnlines(ls: seq<string>)
    requires forall k :: 0 <= k < |ls| ==> '\n' !in ls[k]
    ensures Lines(Unlines(ls)) == ls
  {
    FieldsOfUnlines(ls);
    assert (ls + [""])[..|ls|] == ls;
  }
}
