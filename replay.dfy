/** The text of a replay record. The turn loop records the player count as
    `str(n)` and each committed move as `str(start) + "to" + str(end)`; the
    replay viewer splits each line at "to" and reads the two coordinates
    back. Python's `str` of an int and of a pair of ints is written out
    here, and reading back stands for `eval` on exactly those strings. */
module Replay {
  import opened Hex
  import opened SeqUtil

  // ----- str -----

  function Digit(d: int): (ch: char)
    requires 0 <= d < 10
    ensures IsDigit(ch)
  {
    ('0' as int + d) as char
  }

  predicate IsDigit(ch: char) {
    '0' <= ch <= '9'
  }

  function DigitValue(ch: char): int
    requires IsDigit(ch)
  {
    ch as int - '0' as int
  }

  /** The decimal digits of n, most significant first, without leading
      zeros. */
  function NatString(n: nat): (s: string)
    ensures |s| >= 1 && forall i :: 0 <= i < |s| ==> IsDigit(s[i])
    decreases n
  {
    if n < 10 then [Digit(n)] else NatString(n / 10) + [Digit(n % 10)]
  }

  /** `str(i)` for an int. */
  function IntString(i: int): string {
    if i < 0 then "-" + NatString(-i) else NatString(i)
  }

  /** `str((p, q))` for a pair of ints. */
  function CoorString(c: Coor): string {
    "(" + IntString(c.p) + ", " + IntString(c.q) + ")"
  }

  /** One record line: `str(start) + sep + str(end)`. */
  function MoveLine(start: Coor, end: Coor, sep: string): string {
    CoorString(start) + sep + CoorString(end)
  }

  // ----- Reading back -----

  /** The value of a non-empty string of decimal digits. */
  function ParseNat(s: string): (r: Option<nat>)
    ensures r.Some? ==> |s| >= 1 && forall i :: 0 <= i < |s| ==> IsDigit(s[i])
    decreases |s|
  {
    if s == [] || !IsDigit(s[|s| - 1]) then None
    else if |s| == 1 then Some(DigitValue(s[0]))
    else
      match ParseNat(s[..|s| - 1])
      case None => None
      case Some(v) => Some(10 * v + DigitValue(s[|s| - 1]))
  }

  /** An optional minus sign followed by decimal digits. */
  function ParseInt(s: string): (r: Option<int>)
    ensures r.Some? ==> forall i :: 0 <= i < |s| ==> s[i] == '-' || IsDigit(s[i])
  {
    if |s| >= 1 && s[0] == '-' then
      match ParseNat(s[1..])
      case None => None
      case Some(v) => Some(-(v as int))
    else
      match ParseNat(s)
      case None => None
      case Some(v) => Some(v)
  }

  /** A character that `str` of a pair of ints can contain. */
  predicate CoorChar(ch: char) {
    ch == '(' || ch == ')' || ch == ',' || ch == ' ' || ch == '-' || IsDigit(ch)
  }

  /** `(p, q)` with two ints. An accepted text holds only brackets, the
      comma, spaces, minus signs and digits, so never the letters of "to". */
  function ParseCoor(s: string): (r: Option<Coor>)
    ensures r.Some? ==> forall i :: 0 <= i < |s| ==> CoorChar(s[i])
  {
    if |s| < 2 || s[0] != '(' || s[|s| - 1] != ')' || ',' !in s[1..|s| - 1] then None
    else
      var inner := s[1..|s| - 1];
      var k := IndexOf(inner, ',');
      if k + 1 >= |inner| || inner[k + 1] != ' ' then None
      else
        match (ParseInt(inner[..k]), ParseInt(inner[k + 2..]))
        case (Some(p), Some(q)) =>
          assert forall i :: 0 <= i < |s| ==> CoorChar(s[i]) by {
            forall i | 0 <= i < |s|
              ensures CoorChar(s[i])
            {
              if 0 < i <= k {
                assert s[i] == inner[..k][i - 1];
              } else if k + 2 < i < |s| - 1 {
                assert s[i] == inner[k + 2..][i - 1 - (k + 2)];
              } else if i == k + 1 {
                assert s[i] == inner[k];
              }
            }
          }
          Some(Coor(p, q))
        case _ => None
  }

  /** The position of the first "to" in s. */
  function FindTo(s: string): (r: Option<nat>)
    ensures r.Some? ==> r.value + 2 <= |s| && s[r.value..r.value + 2] == "to"
    ensures r.Some? ==> forall i :: 0 <= i < r.value ==> !(s[i] == 't' && s[i + 1] == 'o')
    ensures r.None? ==> forall i :: 0 <= i < |s| - 1 ==> !(s[i] == 't' && s[i + 1] == 'o')
    decreases |s|
  {
    if |s| < 2 then None
    else if s[0] == 't' && s[1] == 'o' then Some(0)
    else
      match FindTo(s[1..])
      case None => None
      case Some(k) => Some(k + 1)
  }

  /** `"to".join(parts)`. */
  function JoinTo(parts: seq<string>): string
    decreases |parts|
  {
    if parts == [] then ""
    else if |parts| == 1 then parts[0]
    else parts[0] + "to" + JoinTo(parts[1..])
  }

  /** `s.split("to")`: at least one part, none of them but the last holding
      "to", and joining them with "to" gives s back. */
  function SplitTo(s: string): (r: seq<string>)
    ensures |r| >= 1 && JoinTo(r) == s
    decreases |s|
  {
    match FindTo(s)
    case None => [s]
    case Some(k) =>
      var rest := SplitTo(s[k + 2..]);
      assert s == s[..k] + "to" + s[k + 2..];
      assert ([s[..k]] + rest)[1..] == rest;
      [s[..k]] + rest
  }

  /** The replay viewer's reading of one line: it must split into exactly
      two parts, each a coordinate pair. */
  function ParseMoveLine(line: string): (r: Option<(Coor, Coor)>)
    ensures r.Some? ==> exists a, e :: line == a + "to" + e && ParseCoor(a) == Some(r.value.0) && ParseCoor(e) == Some(r.value.1)
  {
    var parts := SplitTo(line);
    assert |parts| == 2 ==> line == parts[0] + "to" + parts[1] by {
      if |parts| == 2 {
        assert parts[1..] == [parts[1]];
      }
    }
    if |parts| != 2 then None
    else
      match (ParseCoor(parts[0]), ParseCoor(parts[1]))
      case (Some(s), Some(e)) => Some((s, e))
      case _ => None
  }

  // ----- Round trips -----

  lemma {:induction false} NatRoundTrip(n: nat)
    ensures ParseNat(NatString(n)) == Some(n)
    decreases n
  {
    if n >= 10 {
      var s := NatString(n);
      NatRoundTrip(n / 10);
      assert s[..|s| - 1] == NatString(n / 10);
    }
  }

  /** Reading back `str(i)` gives i. */
  lemma IntRoundTrip(i: int)
    ensures ParseInt(IntString(i)) == Some(i)
  {
    if i < 0 {
      NegRoundTrip(i);
    } else {
      NatRoundTrip(i);
      assert IsDigit(NatString(i)[0]);
    }
  }

  lemma NegRoundTrip(i: int)
    requires i < 0
    ensures ParseInt(IntString(i)) == Some(i)
  {
    var s := IntString(i);
    assert s[1..] == NatString(-i);
    NatRoundTrip(-i);
  }

  /** `str(i)` is made of digits and a minus sign only. */
  lemma IntChars(i: int)
    ensures forall k :: 0 <= k < |IntString(i)| ==> IntString(i)[k] == '-' || IsDigit(IntString(i)[k])
    ensures |IntString(i)| >= 1
  {
    if i < 0 {
      var s := NatString(-i);
      assert forall k :: 1 <= k < |IntString(i)| ==> IntString(i)[k] == s[k - 1];
    }
  }

  lemma IndexOfAfter(a: string, b: string, x: char)
    requires x !in a
    ensures x in a + [x] + b && IndexOf(a + [x] + b, x) == |a|
  {
    var s := a + [x] + b;
    assert s[|a|] == x;
    assert s[..|a|] == a;
  }

  /** Reading back `str((p, q))` gives (p, q). */
  lemma CoorRoundTrip(c: Coor)
    ensures ParseCoor(CoorString(c)) == Some(c)
  {
    var s := CoorString(c);
    var a, b := IntString(c.p), IntString(c.q);
    IntChars(c.p);
    IntChars(c.q);
    var inner := s[1..|s| - 1];
    assert inner == a + [','] + (" " + b);
    assert ',' !in a by {
      forall k | 0 <= k < |a|
        ensures a[k] != ','
      {
      }
    }
    IndexOfAfter(a, " " + b, ',');
    assert inner[..|a|] == a;
    assert inner[|a| + 2..] == b;
    IntRoundTrip(c.p);
    IntRoundTrip(c.q);
  }

  /** `str((p, q))` holds no 't'. */
  lemma CoorNoT(c: Coor)
    ensures 't' !in CoorString(c)
  {
    IntChars(c.p);
    IntChars(c.q);
    var s := CoorString(c);
    var a, b := IntString(c.p), IntString(c.q);
    forall k | 0 <= k < |s|
      ensures s[k] != 't'
    {
      if 1 <= k < 1 + |a| {
        assert s[k] == a[k - 1];
      } else if 1 + |a| + 2 <= k < |s| - 1 {
        assert s[k] == b[k - 1 - |a| - 2];
      }
    }
  }

  lemma {:induction false} FindToAfter(a: string, b: string)
    requires 't' !in a
    ensures FindTo(a + "to" + b) == Some(|a|)
    decreases |a|
  {
    if a != [] {
      assert (a + "to" + b)[1..] == a[1..] + "to" + b;
      FindToAfter(a[1..], b);
    } else {
      assert a + "to" + b == "to" + b;
    }
  }

  lemma {:induction false} FindToNone(s: string)
    requires 't' !in s
    ensures FindTo(s) == None
    decreases |s|
  {
    if |s| >= 2 {
      FindToNone(s[1..]);
    }
  }

  /** A recorded line splits at "to" into exactly str(start) and str(end),
      and the replay viewer reads back the move that was recorded. */
  lemma LineRoundTrip(start: Coor, end: Coor)
    ensures SplitTo(MoveLine(start, end, "to")) == [CoorString(start), CoorString(end)]
    ensures ParseMoveLine(MoveLine(start, end, "to")) == Some((start, end))
  {
    var a, b := CoorString(start), CoorString(end);
    CoorNoT(start);
    CoorNoT(end);
    FindToAfter(a, b);
    var line := MoveLine(start, end, "to");
    assert line[..|a|] == a;
    assert line[|a| + 2..] == b;
    FindToNone(b);
    CoorRoundTrip(start);
    CoorRoundTrip(end);
  }

  /** A line written with a space between the coordinates, as the training
      loop writes them, does not split at "to", so the replay viewer
      rejects it. */
  lemma SpaceLineRejected(start: Coor, end: Coor)
    ensures ParseMoveLine(MoveLine(start, end, " ")) == None
  {
    var line := MoveLine(start, end, " ");
    CoorNoT(start);
    CoorNoT(end);
    assert 't' !in line by {
      var a, b := CoorString(start), CoorString(end);
      forall k | 0 <= k < |line|
        ensures line[k] != 't'
      {
        if k < |a| {
          assert line[k] == a[k];
        } else if k > |a| {
          assert line[k] == b[k - |a| - 1];
        }
      }
    }
    FindToNone(line);
  }
}
