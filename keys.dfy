/** `coordsToKey` of the latest engine (src/hooks/useGame.ts): the map of fields is
    keyed by the text "[x,y]". The parser below inverts it, which shows that
    distinct coordinates never share a key; the engine model therefore keys its
    map by `Coords` directly. */
module Keys {
  import opened Board

  function DigitChar(d: int): char
    requires 0 <= d < 10
  {
    ('0' as int + d) as char
  }

  predicate IsDigit(ch: char) {
    '0' <= ch <= '9'
  }

  predicate AllDigits(s: string) {
    forall i :: 0 <= i < |s| ==> IsDigit(s[i])
  }

  /** Decimal text of a natural number, without leading zeros (JavaScript's `${n}`). */
  function NatToString(n: nat): (s: string)
    ensures |s| >= 1 && AllDigits(s)
  {
    if n < 10 then [DigitChar(n)] else NatToString(n / 10) + [DigitChar(n % 10)]
  }

  function IntToString(i: int): (s: string)
    ensures |s| >= 1 && forall k :: 0 <= k < |s| ==> s[k] != ',' && s[k] != ']'
  {
    if i < 0 then "-" + NatToString(-i) else NatToString(i)
  }

  function ParseNat(s: string): nat
    requires |s| >= 1 && AllDigits(s)
  {
    var d := s[|s| - 1] as int - '0' as int;
    if |s| == 1 then d else ParseNat(s[..|s| - 1]) * 10 + d
  }

  function ParseInt(s: string): Option<int> {
    if |s| >= 2 && s[0] == '-' && AllDigits(s[1..]) then Some(-(ParseNat(s[1..]) as int))
    else if |s| >= 1 && AllDigits(s) then Some(ParseNat(s))
    else None
  }

  /** Index of the first occurrence of ch in s, or |s| when there is none. */
  function FirstIndexOf(s: string, ch: char): (r: nat)
    ensures r <= |s|
  {
    if s == [] then 0 else if s[0] == ch then 0 else 1 + FirstIndexOf(s[1..], ch)
  }

  /** Reads "[x,y]" back into coordinates. */
  function KeyToCoords(k: string): Option<Coords> {
    if |k| >= 2 && k[0] == '[' && k[|k| - 1] == ']' then
      var inner := k[1..|k| - 1];
      var i := FirstIndexOf(inner, ',');
      if i < |inner| then
        match (ParseInt(inner[..i]), ParseInt(inner[i + 1..]))
        case (Some(x), Some(y)) => Some(Coords(x, y))
        case _ => None
      else None
    else None
  }

  lemma {:induction false} NatRoundTrip(n: nat)
    ensures ParseNat(NatToString(n)) == n
  {
    if n >= 10 {
      var s := NatToString(n);
      assert s[..|s| - 1] == NatToString(n / 10);
      NatRoundTrip(n / 10);
    }
  }

  lemma IntRoundTrip(i: int)
    ensures ParseInt(IntToString(i)) == Some(i)
  {
    if i < 0 {
      var s := IntToString(i);
      assert s[1..] == NatToString(-i);
      NatRoundTrip(-i);
    } else {
      NatRoundTrip(i);
      var s := NatToString(i);
      assert s[0] != '-';
    }
  }

  lemma {:induction false} FirstIndexOfPrefix(a: string, b: string, ch: char)
    requires forall k :: 0 <= k < |a| ==> a[k] != ch
    ensures FirstIndexOf(a + [ch] + b, ch) == |a|
  {
    if a != [] {
      assert (a + [ch] + b)[1..] == a[1..] + [ch] + b;
      FirstIndexOfPrefix(a[1..], b, ch);
    }
  }

  /** `coordsToKey`: the key "[x,y]"; reading it back gives the coordinates. */
  function CoordsToKey(c: Coords): (k: string)
    ensures KeyToCoords(k) == Some(c)
  {
    var sx, sy := IntToString(c.x), IntToString(c.y);
    var k := "[" + sx + "," + sy + "]";
    assert k[1..|k| - 1] == sx + [','] + sy;
    FirstIndexOfPrefix(sx, sy, ',');
    assert (sx + [','] + sy)[..|sx|] == sx;
    assert (sx + [','] + sy)[|sx| + 1..] == sy;
    IntRoundTrip(c.x);
    IntRoundTrip(c.y);
    k
  }

  /** Distinct coordinates never share a key, so a map keyed by "[x,y]" holds
      one entry per cell. */
  lemma CoordsToKeyInjective(a: Coords, b: Coords)
    requires CoordsToKey(a) == CoordsToKey(b)
    ensures a == b
  {
    assert KeyToCoords(CoordsToKey(a)) == Some(a);
    assert KeyToCoords(CoordsToKey(b)) == Some(b);
  }
}
