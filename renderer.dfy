/**
 * The renderer's two colour helpers: shading a `#RRGGBB` colour, and
 * listing the colours of the land around a cell for blending.
 */
module Rendering {
  import opened Tiles
  import opened Grid

  predicate IsHexDigit(c: char)
  {
    '0' <= c <= '9' || 'a' <= c <= 'f' || 'A' <= c <= 'F'
  }

  predicate IsLowerHexDigit(c: char)
  {
    '0' <= c <= '9' || 'a' <= c <= 'f'
  }

  /** The value of one hex digit, either case (`parseInt(_, 16)` on one character). */
  function HexValue(c: char): (v: nat)
    requires IsHexDigit(c)
    ensures v < 16
  {
    if '0' <= c <= '9' then c as int - '0' as int
    else if 'a' <= c <= 'f' then c as int - 'a' as int + 10
    else c as int - 'A' as int + 10
  }

  /** The digit `toString(16)` writes for a value below 16: lower case. */
  function HexDigit(v: nat): (c: char)
    requires v < 16
    ensures IsLowerHexDigit(c) && HexValue(c) == v
  {
    if v < 10 then ('0' as int + v) as char else ('a' as int + v - 10) as char
  }

  /** Reading a lower-case digit and writing it back gives the same digit. */
  lemma DigitRoundTrip(c: char)
    requires IsLowerHexDigit(c)
    ensures HexDigit(HexValue(c)) == c
  {
  }

  /** A colour as the terrain table writes it: `#` and six hex digits. */
  predicate IsHexColor(s: string)
  {
    |s| == 7 && s[0] == '#' && forall i :: 1 <= i < 7 ==> IsHexDigit(s[i])
  }

  /** A colour as `adjustColor` writes it: `#` and six lower-case hex digits. */
  predicate IsLowerHexColor(s: string)
  {
    |s| == 7 && s[0] == '#' && forall i :: 1 <= i < 7 ==> IsLowerHexDigit(s[i])
  }

  /** Channel k (0 red, 1 green, 2 blue): `parseInt(hex.substr(2 * k, 2), 16)`. */
  function Channel(s: string, k: int): (v: nat)
    requires IsHexColor(s) && 0 <= k < 3
    ensures v < 256
  {
    16 * HexValue(s[1 + 2 * k]) + HexValue(s[2 + 2 * k])
  }

  /** `Math.min(255, Math.max(0, v))`. */
  function Clamp(v: int): int
  {
    if v < 0 then 0 else if v > 255 then 255 else v
  }

  /** `n.toString(16).padStart(2, '0')` for a byte. */
  function Hex2(n: int): (s: string)
    requires 0 <= n < 256
    ensures |s| == 2 && IsLowerHexDigit(s[0]) && IsLowerHexDigit(s[1])
    ensures 16 * HexValue(s[0]) + HexValue(s[1]) == n
  {
    [HexDigit(n / 16), HexDigit(n % 16)]
  }

  /**
   * `adjustColor`: every channel shifted by `amount` and clamped to a byte,
   * written back in lower case.
   */
  function AdjustColor(color: string, amount: int): (r: string)
    requires IsHexColor(color)
    ensures IsLowerHexColor(r) && IsHexColor(r)
    ensures Channel(r, 0) == Clamp(Channel(color, 0) + amount)
    ensures Channel(r, 1) == Clamp(Channel(color, 1) + amount)
    ensures Channel(r, 2) == Clamp(Channel(color, 2) + amount)
  {
    var red, green, blue := Hex2(Clamp(Channel(color, 0) + amount)), Hex2(Clamp(Channel(color, 1) + amount)),
      Hex2(Clamp(Channel(color, 2) + amount));
    var r := ['#', red[0], red[1], green[0], green[1], blue[0], blue[1]];
    assert IsLowerHexColor(r);
    assert Channel(r, 0) == 16 * HexValue(red[0]) + HexValue(red[1]);
    assert Channel(r, 1) == 16 * HexValue(green[0]) + HexValue(green[1]);
    assert Channel(r, 2) == 16 * HexValue(blue[0]) + HexValue(blue[1]);
    r
  }

  /** Two lower-case colours with the same three channels are the same string. */
  lemma SameChannelsSameColor(s: string, t: string)
    requires IsLowerHexColor(s) && IsLowerHexColor(t)
    requires Channel(s, 0) == Channel(t, 0) && Channel(s, 1) == Channel(t, 1) && Channel(s, 2) == Channel(t, 2)
    ensures s == t
  {
    SamePair(s, t, 0);
    SamePair(s, t, 1);
    SamePair(s, t, 2);
    assert forall i | 0 <= i < 7 :: s[i] == t[i];
  }

  /** A channel's two lower-case digits are determined by its value. */
  lemma SamePair(s: string, t: string, k: int)
    requires IsLowerHexColor(s) && IsLowerHexColor(t) && 0 <= k < 3
    requires Channel(s, k) == Channel(t, k)
    ensures s[1 + 2 * k] == t[1 + 2 * k] && s[2 + 2 * k] == t[2 + 2 * k]
  {
    var hi, lo := s[1 + 2 * k], s[2 + 2 * k];
    var hi', lo' := t[1 + 2 * k], t[2 + 2 * k];
    assert HexValue(hi) == HexValue(hi') && HexValue(lo) == HexValue(lo');
    DigitRoundTrip(hi);
    DigitRoundTrip(hi');
    DigitRoundTrip(lo);
    DigitRoundTrip(lo');
  }

  /** `c` with its hex letters in lower case. */
  function Lowered(s: string): string
  {
    if s == [] then []
    else [LowerChar(s[0])] + Lowered(s[1..])
  }

  function LowerChar(c: char): char
  {
    if 'A' <= c <= 'F' then (c as int - 'A' as int + 'a' as int) as char else c
  }

  lemma {:induction false} LoweredAt(s: string, i: int)
    requires 0 <= i < |s|
    ensures |Lowered(s)| == |s|
    ensures Lowered(s)[i] == LowerChar(s[i])
  {
    if i > 0 {
      LoweredAt(s[1..], i - 1);
    } else if |s| > 1 {
      LoweredAt(s[1..], 0);
    }
  }

  /** Lower-casing a colour keeps its channels. */
  lemma LoweredChannels(color: string)
    requires IsHexColor(color)
    ensures IsLowerHexColor(Lowered(color)) && IsHexColor(Lowered(color))
    ensures Channel(Lowered(color), 0) == Channel(color, 0)
    ensures Channel(Lowered(color), 1) == Channel(color, 1)
    ensures Channel(Lowered(color), 2) == Channel(color, 2)
  {
    var low := Lowered(color);
    forall i | 0 <= i < 7
      ensures |low| == 7 && low[i] == LowerChar(color[i])
    {
      LoweredAt(color, i);
    }
  }

  /** Shifting by zero only lower-cases the colour. */
  lemma AdjustByZero(color: string)
    requires IsHexColor(color)
    ensures AdjustColor(color, 0) == Lowered(color)
  {
    LoweredChannels(color);
    SameChannelsSameColor(AdjustColor(color, 0), Lowered(color));
  }

  lemma ClampTwice(v: int, a: int, b: int)
    requires 0 <= v <= 255
    requires (a >= 0 && b >= 0) || (a <= 0 && b <= 0)
    ensures Clamp(Clamp(v + a) + b) == Clamp(v + a + b)
  {
  }

  /** Two shifts the same way add up, as long as neither has to undo the other's clamping. */
  lemma AdjustCompose(color: string, a: int, b: int)
    requires IsHexColor(color)
    requires (a >= 0 && b >= 0) || (a <= 0 && b <= 0)
    ensures AdjustColor(AdjustColor(color, a), b) == AdjustColor(color, a + b)
  {
    var once := AdjustColor(color, a);
    ShiftsCompose(color, once, AdjustColor(once, b), AdjustColor(color, a + b), a, b);
  }

  /** `AdjustCompose` for any strings whose channels are shifted that way. */
  lemma ShiftsCompose(color: string, once: string, twice: string, direct: string, a: int, b: int)
    requires IsHexColor(color) && IsHexColor(once) && IsLowerHexColor(twice) && IsLowerHexColor(direct)
    requires (a >= 0 && b >= 0) || (a <= 0 && b <= 0)
    requires Channel(once, 0) == Clamp(Channel(color, 0) + a) && Channel(once, 1) == Clamp(Channel(color, 1) + a)
    requires Channel(once, 2) == Clamp(Channel(color, 2) + a)
    requires Channel(twice, 0) == Clamp(Channel(once, 0) + b) && Channel(twice, 1) == Clamp(Channel(once, 1) + b)
    requires Channel(twice, 2) == Clamp(Channel(once, 2) + b)
    requires Channel(direct, 0) == Clamp(Channel(color, 0) + (a + b)) && Channel(direct, 1) == Clamp(Channel(color, 1) + (a + b))
    requires Channel(direct, 2) == Clamp(Channel(color, 2) + (a + b))
    ensures twice == direct
  {
    ShiftTwice(color, once, twice, direct, a, b, 0);
    ShiftTwice(color, once, twice, direct, a, b, 1);
    ShiftTwice(color, once, twice, direct, a, b, 2);
    SameChannelsSameColor(twice, direct);
  }

  /** One channel of `AdjustCompose`, for any strings whose channels are shifted that way. */
  lemma ShiftTwice(color: string, once: string, twice: string, direct: string, a: int, b: int, k: int)
    requires IsHexColor(color) && IsHexColor(once) && IsHexColor(twice) && IsHexColor(direct) && 0 <= k < 3
    requires (a >= 0 && b >= 0) || (a <= 0 && b <= 0)
    requires Channel(once, k) == Clamp(Channel(color, k) + a)
    requires Channel(twice, k) == Clamp(Channel(once, k) + b)
    requires Channel(direct, k) == Clamp(Channel(color, k) + (a + b))
    ensures Channel(twice, k) == Channel(direct, k)
  {
    ClampTwice(Channel(color, k), a, b);
  }

  /** A cell whose colour is shown around a tile: in bounds, and neither water nor sand. */
  predicate Shows(terrain: array2<Tile>, q: Pos, c: string)
    reads terrain
  {
    IsValidPosition(terrain, q.0, q.1) && terrain[q.1, q.0].color == c && c != WaterColor && c != SandColor
  }

  /** The colours the loop pushes, one per shown neighbour, in direction order. */
  function Pushed(terrain: array2<Tile>, p: Pos, ds: seq<Pos>): (cs: seq<string>)
    reads terrain
    ensures |cs| <= |ds|
    ensures forall c :: c in cs <==> exists i :: 0 <= i < |ds| && Shows(terrain, Offset(p, ds[i]), c)
  {
    if ds == [] then []
    else
      var q := Offset(p, ds[|ds| - 1]);
      var before := Pushed(terrain, p, ds[..|ds| - 1]);
      var c := if IsValidPosition(terrain, q.0, q.1) then terrain[q.1, q.0].color else "";
      var cs := before + (if IsValidPosition(terrain, q.0, q.1) && c != WaterColor && c != SandColor then [c] else []);
      assert forall i :: 0 <= i < |ds| - 1 ==> ds[..|ds| - 1][i] == ds[i];
      cs
  }

  /** Index of the first occurrence of `x` in `s`. */
  function FirstIndex<T(==)>(s: seq<T>, x: T): (i: nat)
    requires x in s
    ensures i < |s| && s[i] == x && x !in s[..i]
  {
    if s[0] == x then 0
    else
      var j := FirstIndex(s[1..], x);
      assert s[..j + 1] == [s[0]] + s[1..][..j];
      j + 1
  }

  lemma {:induction false} FirstIndexPrefix<T>(s: seq<T>, t: seq<T>, x: T)
    requires x in s
    ensures FirstIndex(s + t, x) == FirstIndex(s, x)
  {
    var i := FirstIndex(s, x);
    var j := FirstIndex(s + t, x);
    assert (s + t)[i] == x;
    assert (s + t)[..i] == s[..i];
  }

  /** `[...new Set(s)]`: each element once, at its first occurrence. */
  function Dedup<T(==,!new)>(s: seq<T>): (r: seq<T>)
    ensures NoDup(r)
    ensures forall x :: x in r <==> x in s
    ensures |r| <= |s|
    ensures forall i, j :: 0 <= i < j < |r| ==> FirstIndex(s, r[i]) < FirstIndex(s, r[j])
  {
    if s == [] then []
    else
      var init := s[..|s| - 1];
      var last := s[|s| - 1];
      var d := Dedup(init);
      assert s == init + [last];
      forall x | x in init
        ensures FirstIndex(s, x) == FirstIndex(init, x) < |init|
      {
        FirstIndexPrefix(init, [last], x);
      }
      if last in d then d
      else
        var r := d + [last];
        assert FirstIndex(s, last) == |init|;
        assert forall i :: 0 <= i < |d| ==> r[i] == d[i] && d[i] in init;
        r
  }

  class Renderer {
    const terrain: array2<Tile>

    constructor(terrain: array2<Tile>)
      ensures this.terrain == terrain
    {
      this.terrain := terrain;
    }

    /**
     * `getAdjacentTerrainColors`: the distinct colours of the in-bounds
     * left, right, up and down neighbours, water and sand left out, in the
     * order they are first met.
     */
    method GetAdjacentTerrainColors(x: int, y: int) returns (colors: seq<string>)
      ensures colors == Dedup(Pushed(terrain, (x, y), Directions))
      ensures |colors| <= 4 && NoDup(colors)
      ensures forall c :: c in colors <==> exists d :: d in Directions && Shows(terrain, Offset((x, y), d), c)
      ensures WaterColor !in colors && SandColor !in colors
    {
      var pushed: seq<string> := [];
      for i := 0 to |Directions|
        invariant pushed == Pushed(terrain, (x, y), Directions[..i])
      {
        var d := Directions[i];
        var nx, ny := x + d.0, y + d.1;
        assert Directions[..i + 1][..i] == Directions[..i];
        if 0 <= nx < terrain.Length1 && 0 <= ny < terrain.Length0 {
          var tile := terrain[ny, nx];
          if tile.color != WaterColor && tile.color != SandColor {
            pushed := pushed + [tile.color];
          }
        }
      }
      assert Directions[..|Directions|] == Directions;
      colors := Dedup(pushed);
      forall c
        ensures c in colors <==> exists d :: d in Directions && Shows(terrain, Offset((x, y), d), c)
      {
        if c in colors {
          var i :| 0 <= i < |Directions| && Shows(terrain, Offset((x, y), Directions[i]), c);
        }
      }
    }
  }
}
