/**
  String helpers over `seq<char>` that stand in for the Python string
  operations the generator uses: `in` (substring containment),
  `", ".join`, `"".join` and `str.upper`, together with the searching and
  splitting functions that their partner lemmas need.
 */
module Text {

  /** `p` occurs in `s` starting at offset `i`. */
  predicate OccursAt(s: string, p: string, i: nat)
  {
    i + |p| <= |s| && s[i..i + |p|] == p
  }

  /** Python's `p in s` for two strings: case-sensitive substring containment. */
  predicate Contains(s: string, p: string)
    decreases |s|
  {
    (|p| <= |s| && s[..|p|] == p) || (|s| > 0 && Contains(s[1..], p))
  }

  /** Containment means an occurrence at some offset, and nothing else. */
  lemma ContainsIffOccurs(s: string, p: string)
    ensures Contains(s, p) <==> exists i: nat :: OccursAt(s, p, i)
  {
    if Contains(s, p) {
      ContainsHasOccurrence(s, p);
    }
    if exists i: nat :: OccursAt(s, p, i) {
      var i: nat :| OccursAt(s, p, i);
      OccurrenceIsContained(s, p, i);
    }
  }

  lemma {:induction false} ContainsHasOccurrence(s: string, p: string)
    requires Contains(s, p)
    ensures exists i: nat :: OccursAt(s, p, i)
    decreases |s|
  {
    if |p| <= |s| && s[..|p|] == p {
      assert OccursAt(s, p, 0);
    } else {
      ContainsHasOccurrence(s[1..], p);
      var i: nat :| OccursAt(s[1..], p, i);
      assert s[1..][i..i + |p|] == s[i + 1..i + 1 + |p|];
      assert OccursAt(s, p, i + 1);
    }
  }

  lemma {:induction false} OccurrenceIsContained(s: string, p: string, i: nat)
    requires OccursAt(s, p, i)
    ensures Contains(s, p)
    decreases i
  {
    if i > 0 {
      assert s[1..][i - 1..i - 1 + |p|] == s[i..i + |p|];
      OccurrenceIsContained(s[1..], p, i - 1);
    }
  }

  /** Whatever is glued around a string still contains it. */
  lemma ContainsInfix(a: string, b: string, c: string)
    ensures Contains(a + b + c, b)
  {
    assert (a + b + c)[|a|..|a| + |b|] == b;
    OccurrenceIsContained(a + b + c, b, |a|);
  }

  /** Every string contains itself. */
  lemma ContainsSelf(s: string)
    ensures Contains(s, s)
  {
    assert s[..|s|] == s;
  }

  /** Text appended on the right keeps what was contained. */
  lemma ContainsExtendRight(s: string, t: string, x: string)
    requires Contains(s, x)
    ensures Contains(s + t, x)
  {
    ContainsHasOccurrence(s, x);
    var i: nat :| OccursAt(s, x, i);
    assert (s + t)[i..i + |x|] == s[i..i + |x|];
    OccurrenceIsContained(s + t, x, i);
  }

  /** Text prepended on the left keeps what was contained. */
  lemma ContainsExtendLeft(t: string, s: string, x: string)
    requires Contains(s, x)
    ensures Contains(t + s, x)
  {
    ContainsHasOccurrence(s, x);
    var i: nat :| OccursAt(s, x, i);
    assert (t + s)[|t| + i..|t| + i + |x|] == s[i..i + |x|];
    OccurrenceIsContained(t + s, x, |t| + i);
  }

  /** Containment is transitive. */
  lemma ContainsTransitive(s: string, t: string, x: string)
    requires Contains(s, t) && Contains(t, x)
    ensures Contains(s, x)
  {
    ContainsHasOccurrence(s, t);
    var i: nat :| OccursAt(s, t, i);
    ContainsHasOccurrence(t, x);
    var j: nat :| OccursAt(t, x, j);
    forall k | 0 <= k < |x|
      ensures s[i + j + k] == x[k]
    {
      assert s[i..i + |t|][j + k] == t[j + k];
      assert t[j..j + |x|][k] == t[j + k];
    }
    assert s[i + j..i + j + |x|] == x;
    OccurrenceIsContained(s, x, i + j);
  }

  /** Python's `sep.join(parts)`. */
  function Join(parts: seq<string>, sep: string): string
  {
    if |parts| == 0 then ""
    else if |parts| == 1 then parts[0]
    else parts[0] + sep + Join(parts[1..], sep)
  }

  /** Python's `"".join(parts)`, unfolded from the last part as the source appends. */
  function Concat(parts: seq<string>): string
  {
    if |parts| == 0 then "" else Concat(parts[..|parts| - 1]) + parts[|parts| - 1]
  }

  /** Joining with `sep` costs exactly one separator between neighbouring parts. */
  lemma {:induction false} JoinLength(parts: seq<string>, sep: string)
    requires |parts| > 0
    ensures |Join(parts, sep)| == SumLengths(parts) + (|parts| - 1) * |sep|
  {
    if |parts| > 1 {
      JoinLength(parts[1..], sep);
    }
  }

  /** Joining parts that are all non-empty gives the empty text only for no parts. */
  lemma JoinOfNonEmptyParts(parts: seq<string>, sep: string)
    requires forall k :: 0 <= k < |parts| ==> |parts[k]| > 0
    ensures Join(parts, sep) == "" <==> |parts| == 0
  {
    if |parts| > 0 {
      JoinLength(parts, sep);
      assert SumLengths(parts) >= |parts[0]|;
    }
  }

  /** The total length of a list of strings. */
  function SumLengths(parts: seq<string>): nat
  {
    if |parts| == 0 then 0 else |parts[0]| + SumLengths(parts[1..])
  }

  /** Concatenation of two lists of parts is the concatenation of their texts: order is kept. */
  lemma {:induction false} ConcatAppend(a: seq<string>, b: seq<string>)
    ensures Concat(a + b) == Concat(a) + Concat(b)
    decreases |b|
  {
    if |b| == 0 {
      assert a + b == a;
    } else {
      assert (a + b)[..|a + b| - 1] == a + b[..|b| - 1];
      ConcatAppend(a, b[..|b| - 1]);
    }
  }

  /** Every part of a concatenation occurs in it. */
  lemma {:induction false} ConcatContainsPart(parts: seq<string>, i: nat)
    requires i < |parts|
    ensures Contains(Concat(parts), parts[i])
  {
    assert parts == parts[..i] + [parts[i]] + parts[i + 1..];
    ConcatAppend(parts[..i] + [parts[i]], parts[i + 1..]);
    ConcatAppend(parts[..i], [parts[i]]);
    assert Concat([parts[i]]) == parts[i] by {
      assert [parts[i]][..0] == [];
    }
    ContainsInfix(Concat(parts[..i]), parts[i], Concat(parts[i + 1..]));
  }

  /** Every run of consecutive parts occurs in the concatenation. */
  lemma ConcatContainsRun(parts: seq<string>, i: nat, j: nat)
    requires i <= j <= |parts|
    ensures Contains(Concat(parts), Concat(parts[i..j]))
  {
    var upto, back := parts[..j], parts[j..];
    var front, run := upto[..i], upto[i..];
    assert parts == upto + back;
    assert upto == front + run;
    assert run == parts[i..j];
    ConcatAppend(upto, back);
    ConcatAppend(front, run);
    ContainsInfix(Concat(front), Concat(run), Concat(back));
  }

  lemma ConcatOfThree(a: string, b: string, c: string)
    ensures Concat([a, b, c]) == a + b + c
  {
    assert [a][..0] == [];
    assert Concat([a]) == a;
    assert [a, b][..1] == [a];
    assert Concat([a, b]) == a + b;
    assert [a, b, c][..2] == [a, b];
  }

  lemma ConcatOfFive(a: string, b: string, c: string, d: string, e: string)
    ensures Concat([a, b, c, d, e]) == a + b + c + d + e
  {
    assert [a, b, c, d, e][..4] == [a, b, c, d];
    assert [a, b, c, d][..3] == [a, b, c];
    ConcatOfThree(a, b, c);
    assert Concat([a, b, c, d]) == a + b + c + d;
  }

  /** Three consecutive parts occur, glued together, in the concatenation. */
  lemma ConcatContainsThree(parts: seq<string>, i: nat, a: string, b: string, c: string)
    requires i + 3 <= |parts| && parts[i] == a && parts[i + 1] == b && parts[i + 2] == c
    ensures Contains(Concat(parts), a + b + c)
  {
    assert parts[i..i + 3] == [a, b, c];
    ConcatContainsRun(parts, i, i + 3);
    ConcatOfThree(a, b, c);
  }

  /** Five consecutive parts occur, glued together, in the concatenation. */
  lemma ConcatContainsFive(parts: seq<string>, i: nat, a: string, b: string, c: string, d: string, e: string)
    requires i + 5 <= |parts| && parts[i] == a && parts[i + 1] == b && parts[i + 2] == c
    requires parts[i + 3] == d && parts[i + 4] == e
    ensures Contains(Concat(parts), a + b + c + d + e)
  {
    assert parts[i..i + 5] == [a, b, c, d, e];
    ConcatContainsRun(parts, i, i + 5);
    ConcatOfFive(a, b, c, d, e);
  }

  /** The first position of `c` in `s`, or `|s|` when `c` does not occur. */
  function IndexOf(s: string, c: char): (i: nat)
    ensures i <= |s|
    ensures i < |s| ==> s[i] == c
    ensures forall j :: 0 <= j < i ==> s[j] != c
  {
    if |s| == 0 then 0 else if s[0] == c then 0 else 1 + IndexOf(s[1..], c)
  }

  /** The last position of `c` in `s`, or `-1` when `c` does not occur. */
  function LastIndex(s: string, c: char): (i: int)
    ensures -1 <= i < |s|
    ensures i >= 0 ==> s[i] == c
    ensures forall j :: i < j < |s| ==> s[j] != c
  {
    if |s| == 0 then -1
    else if s[|s| - 1] == c then |s| - 1
    else LastIndex(s[..|s| - 1], c)
  }

  /** The characterisation of `LastIndex`: the position of an occurrence with none after it. */
  lemma LastIndexIs(s: string, c: char, i: nat)
    requires i < |s| && s[i] == c
    requires forall j :: i < j < |s| ==> s[j] != c
    ensures LastIndex(s, c) == i
  {
  }

  /** Reads back a list written by `", ".join`: cuts at every comma and drops one following space. */
  function SplitComma(s: string): (parts: seq<string>)
    ensures |parts| > 0
    decreases |s|
  {
    var i := IndexOf(s, ',');
    if i == |s| then [s]
    else if i + 1 < |s| && s[i + 1] == ' ' then [s[..i]] + SplitComma(s[i + 2..])
    else [s[..i]] + SplitComma(s[i + 1..])
  }

  /** `", ".join` loses nothing when the parts hold no comma: splitting gives the parts back. */
  lemma {:induction false} SplitJoin(parts: seq<string>)
    requires |parts| > 0
    requires forall k :: 0 <= k < |parts| ==> ',' !in parts[k]
    ensures SplitComma(Join(parts, ", ")) == parts
  {
    var s := Join(parts, ", ");
    if |parts| == 1 {
      assert IndexOf(s, ',') == |s|;
    } else {
      var rest := Join(parts[1..], ", ");
      assert s == parts[0] + ", " + rest;
      assert s[|parts[0]|] == ',';
      assert IndexOf(s, ',') == |parts[0]|;
      assert s[..|parts[0]|] == parts[0];
      assert s[|parts[0]| + 2..] == rest;
      SplitJoin(parts[1..]);
      assert [parts[0]] + parts[1..] == parts;
    }
  }

  /** A character is a lower-case ASCII letter. */
  predicate IsLowerAscii(c: char)
  {
    'a' <= c <= 'z'
  }

  /** Python's `str.upper` on one character, for the ASCII letters. */
  function UpperChar(c: char): char
  {
    if IsLowerAscii(c) then (c as int - 32) as char else c
  }

  /** Python's `str.upper`: lower-case letters become capitals, everything else is kept. */
  function Upper(s: string): (r: string)
    ensures |r| == |s|
    ensures forall i :: 0 <= i < |r| ==> !IsLowerAscii(r[i])
    ensures forall i :: 0 <= i < |s| && !IsLowerAscii(s[i]) ==> r[i] == s[i]
    ensures forall i :: 0 <= i < |s| && IsLowerAscii(s[i]) ==> r[i] as int == s[i] as int - 32
  {
    seq(|s|, i requires 0 <= i < |s| => UpperChar(s[i]))
  }
}
