/**
 * The few operations on Ruby strings and string arrays that the node status
 * action relies on: `Array#join`, `String#gsub(/[\r\n]/, '')` and
 * `Integer#to_s`. `Pieces` is not a Ruby operation; it is the reading of a
 * text as the pieces between separator characters, used to state what the
 * console output looks like line by line.
 */
module RubyText {

  /** `parts.join(sep)`: the parts, in order, with `sep` between neighbours. */
  function Join(parts: seq<string>, sep: string): (r: string)
    ensures |parts| == 0 ==> r == ""
    ensures |parts| > 0 ==> |parts[0]| <= |r|
    decreases |parts|
  {
    if |parts| == 0 then ""
    else if |parts| == 1 then parts[0]
    else parts[0] + sep + Join(parts[1..], sep)
  }

  /** The summed lengths of the parts. */
  function TotalLength(parts: seq<string>): nat
    decreases |parts|
  {
    if |parts| == 0 then 0 else |parts[0]| + TotalLength(parts[1..])
  }

  /** A join is as long as its parts together plus one separator between each pair of neighbours. */
  lemma {:induction false} JoinLength(parts: seq<string>, sep: string)
    requires |parts| > 0
    ensures |Join(parts, sep)| == TotalLength(parts) + (|parts| - 1) * |sep|
    decreases |parts|
  {
    if |parts| > 1 {
      JoinLength(parts[1..], sep);
    }
  }

  /** Two parts join into the first, the separator and the second. */
  lemma JoinPair(a: string, b: string, sep: string)
    ensures Join([a, b], sep) == a + sep + b
  {
    assert [a, b][1..] == [b];
  }

  /** Joining two non-empty part lists puts exactly one separator between them. */
  lemma {:induction false} JoinConcat(a: seq<string>, b: seq<string>, sep: string)
    requires |a| > 0 && |b| > 0
    ensures Join(a + b, sep) == Join(a, sep) + sep + Join(b, sep)
    decreases |a|
  {
    assert (a + b)[0] == a[0];
    if |a| == 1 {
      assert (a + b)[1..] == b;
    } else {
      assert (a + b)[1..] == a[1..] + b;
      JoinConcat(a[1..], b, sep);
    }
  }

  /** An empty part between two non-empty part lists shows up as a doubled separator. */
  lemma {:induction false} JoinAroundEmpty(a: seq<string>, b: seq<string>, sep: string)
    requires |a| > 0 && |b| > 0
    ensures Join(a + [""] + b, sep) == Join(a, sep) + sep + sep + Join(b, sep)
  {
    assert Join([""], sep) == "";
    JoinConcat([""], b, sep);
    assert a + [""] + b == a + ([""] + b);
    JoinConcat(a, [""] + b, sep);
  }

  /** Each group of lines joined on its own: `groups.map { |g| g.join(sep) }`. */
  function JoinEach(groups: seq<seq<string>>, sep: string): (r: seq<string>)
    ensures |r| == |groups|
  {
    seq(|groups|, i requires 0 <= i < |groups| => Join(groups[i], sep))
  }

  /** The groups' lines one after another, with an empty line between neighbouring groups. */
  function Separated(groups: seq<seq<string>>): (r: seq<string>)
    requires |groups| > 0
    ensures |r| >= |groups[0]|
    decreases |groups|
  {
    if |groups| == 1 then groups[0] else groups[0] + [""] + Separated(groups[1..])
  }

  /**
   * Joining each group with `c` and the results with `c` twice is joining all
   * the lines with `c`, with an empty line between groups.
   */
  lemma {:induction false} JoinGroups(groups: seq<seq<string>>, c: char)
    requires |groups| > 0
    requires forall i :: 0 <= i < |groups| ==> |groups[i]| > 0
    ensures Join(JoinEach(groups, [c]), [c, c]) == Join(Separated(groups), [c])
    decreases |groups|
  {
    if |groups| > 1 {
      var rest := groups[1..];
      var blocks := JoinEach(groups, [c]);
      assert blocks == [Join(groups[0], [c])] + JoinEach(rest, [c]);
      JoinConcat([Join(groups[0], [c])], JoinEach(rest, [c]), [c, c]);
      JoinGroups(rest, c);
      JoinAroundEmpty(groups[0], Separated(rest), [c]);
      assert [c] + [c] == [c, c];
    }
  }

  /** A character absent from every line of every group is absent from the separated lines. */
  lemma {:induction false} SeparatedAvoids(groups: seq<seq<string>>, c: char)
    requires |groups| > 0
    requires forall i, j :: 0 <= i < |groups| && 0 <= j < |groups[i]| ==> c !in groups[i][j]
    ensures forall k :: 0 <= k < |Separated(groups)| ==> c !in Separated(groups)[k]
    decreases |groups|
  {
    if |groups| > 1 {
      SeparatedAvoids(groups[1..], c);
      var later := Separated(groups[1..]);
      forall k | 0 <= k < |Separated(groups)| ensures c !in Separated(groups)[k] {
        if k < |groups[0]| {
          assert Separated(groups)[k] == groups[0][k];
        } else if k > |groups[0]| {
          assert Separated(groups)[k] == later[k - |groups[0]| - 1];
        }
      }
    }
  }

  /** The pieces of `s` between occurrences of `c` (empty pieces included). */
  function Pieces(s: string, c: char): (r: seq<string>)
    ensures |r| >= 1
    ensures forall i :: 0 <= i < |r| ==> c !in r[i]
    decreases |s|
  {
    if |s| == 0 then [""]
    else
      var rest := Pieces(s[1..], c);
      if s[0] == c then [""] + rest else [[s[0]] + rest[0]] + rest[1..]
  }

  /** A text without the separator is a single piece. */
  lemma {:induction false} PiecesWithoutSeparator(s: string, c: char)
    requires c !in s
    ensures Pieces(s, c) == [s]
    decreases |s|
  {
    if |s| > 0 {
      assert s[0] != c;
      PiecesWithoutSeparator(s[1..], c);
      assert [s[0]] + s[1..] == s;
    }
  }

  /** A separator right after a separator-free prefix ends the first piece. */
  lemma {:induction false} PiecesAfter(a: string, b: string, c: char)
    requires c !in a
    ensures Pieces(a + [c] + b, c) == [a] + Pieces(b, c)
    decreases |a|
  {
    var s := a + [c] + b;
    if |a| == 0 {
      assert s[0] == c && s[1..] == b;
    } else {
      assert s[0] == a[0] && a[0] != c;
      assert s[1..] == a[1..] + [c] + b;
      PiecesAfter(a[1..], b, c);
      assert [a[0]] + a[1..] == a;
    }
  }

  /** Splitting a joined text at the separator gives back the parts. */
  lemma {:induction false} PiecesOfJoin(parts: seq<string>, c: char)
    requires |parts| > 0
    requires forall i :: 0 <= i < |parts| ==> c !in parts[i]
    ensures Pieces(Join(parts, [c]), c) == parts
    decreases |parts|
  {
    if |parts| == 1 {
      PiecesWithoutSeparator(parts[0], c);
    } else {
      PiecesOfJoin(parts[1..], c);
      PiecesAfter(parts[0], Join(parts[1..], [c]), c);
      assert [parts[0]] + parts[1..] == parts;
    }
  }

  predicate IsLineBreak(ch: char) { ch == '\r' || ch == '\n' }

  /** `s.gsub(/[\r\n]/, '')`: `s` with every carriage return and line feed removed. */
  function StripLineBreaks(s: string): (r: string)
    ensures forall i :: 0 <= i < |r| ==> !IsLineBreak(r[i])
    ensures |r| <= |s|
    decreases |s|
  {
    if |s| == 0 then ""
    else (if IsLineBreak(s[0]) then "" else [s[0]]) + StripLineBreaks(s[1..])
  }

  /** Stripping leaves a text without line breaks unchanged (so it is idempotent). */
  lemma {:induction false} StripLineBreaksKeeps(s: string)
    requires forall i :: 0 <= i < |s| ==> !IsLineBreak(s[i])
    ensures StripLineBreaks(s) == s
    decreases |s|
  {
    if |s| > 0 {
      StripLineBreaksKeeps(s[1..]);
      assert [s[0]] + s[1..] == s;
    }
  }

  /** Stripping works character by character: it distributes over concatenation. */
  lemma {:induction false} StripLineBreaksConcat(a: string, b: string)
    ensures StripLineBreaks(a + b) == StripLineBreaks(a) + StripLineBreaks(b)
    decreases |a|
  {
    if |a| > 0 {
      assert (a + b)[0] == a[0];
      assert (a + b)[1..] == a[1..] + b;
      StripLineBreaksConcat(a[1..], b);
    } else {
      assert a + b == b;
    }
  }

  /** Stripping deletes a line break outright: nothing takes its place. */
  lemma StripLineBreaksDrops(a: string, c: char, b: string)
    requires IsLineBreak(c)
    ensures StripLineBreaks(a + [c] + b) == StripLineBreaks(a + b)
  {
    StripLineBreaksConcat(a + [c], b);
    StripLineBreaksConcat(a, [c]);
    StripLineBreaksConcat(a, b);
    assert [c][1..] == [];
  }

  function DigitChar(d: nat): (ch: char)
    requires d < 10
    ensures '0' <= ch <= '9' && ch as int - '0' as int == d
  {
    (('0' as int) + d) as char
  }

  /** The number a string of decimal digits denotes, most significant first. */
  function DigitsValue(s: string): nat
    requires forall i :: 0 <= i < |s| ==> '0' <= s[i] <= '9'
    decreases |s|
  {
    if |s| == 0 then 0
    else DigitsValue(s[..|s| - 1]) * 10 + (s[|s| - 1] as int - '0' as int)
  }

  /** The decimal digits of a natural number, most significant first; reading them back gives `n`. */
  function Digits(n: nat): (r: string)
    ensures |r| > 0
    ensures forall i :: 0 <= i < |r| ==> '0' <= r[i] <= '9'
    ensures DigitsValue(r) == n
    ensures n == 0 ==> r == "0"
    ensures n > 0 ==> r[0] != '0'
    decreases n
  {
    if n < 10 then [DigitChar(n)]
    else
      var high := Digits(n / 10);
      var r := high + [DigitChar(n % 10)];
      assert r[..|r| - 1] == high;
      assert r[0] == high[0];
      r
  }

  /**
   * `Integer#to_s`: the decimal digits of `i`, preceded by a minus sign when
   * `i` is negative; reading the digits back gives the magnitude of `i`.
   */
  function Decimal(i: int): (r: string)
    ensures |r| > 0
    ensures i >= 0 ==> (forall k :: 0 <= k < |r| ==> '0' <= r[k] <= '9') && DigitsValue(r) == i
    ensures i < 0 ==> |r| > 1 && r[0] == '-'
                      && (forall k :: 1 <= k < |r| ==> '0' <= r[k] <= '9') && DigitsValue(r[1..]) == -i
    ensures i == 0 ==> r == "0"
    ensures i > 0 ==> r[0] != '0'
    ensures i < 0 ==> r[1] != '0'
  {
    if i < 0 then
      var digits := Digits(-i);
      assert ("-" + digits)[1..] == digits;
      "-" + digits
    else Digits(i)
  }
}
