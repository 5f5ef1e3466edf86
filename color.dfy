/**
  `lighten_color`: a "#rrggbb" colour with 30 added to each channel, capped
  at 255; any string not starting with '#' is returned as it is.
 */
module Color {
  import opened Wrappers

  const HexDigits: string := "0123456789abcdef"

  /** The value of one ASCII hexadecimal digit of either case. */
  function DigitValue(c: char): (r: Option<nat>)
    ensures r.Some? ==> r.value < 16
    ensures r.Some? && 'a' <= c ==> HexDigits[r.value] == c
  {
    if '0' <= c <= '9' then Some(c as nat - '0' as nat)
    else if 'a' <= c <= 'f' then Some(c as nat - 'a' as nat + 10)
    else if 'A' <= c <= 'F' then Some(c as nat - 'A' as nat + 10)
    else None
  }

  /** Python's slice `s[i:j]`: both bounds are clipped to the length. */
  function Slice(s: string, i: nat, j: nat): (r: string)
    requires i <= j
    ensures |r| <= j - i
  {
    var lo := if i < |s| then i else |s|;
    var hi := if j < |s| then j else |s|;
    s[lo..hi]
  }

  /**
    `int(t, 16)` on a slice of at most two characters: one or two hexadecimal
    digits, or a sign and one digit; None for the ValueError it raises otherwise.
   */
  function ParseHex(t: string): (r: Option<int>)
    requires |t| <= 2
    ensures r.Some? ==> -15 <= r.value <= 255
  {
    if |t| == 1 then
      match DigitValue(t[0])
      case Some(d) => Some(d as int)
      case None => None
    else if |t| == 2 then
      match (DigitValue(t[0]), DigitValue(t[1]))
      case (Some(h), Some(l)) => Some(16 * h + l)
      case (None, Some(l)) =>
        if t[0] == '+' then Some(l as int)
        else if t[0] == '-' then Some(-(l as int))
        else None
      case _ => None
    else None
  }

  /** The `:02x` format of a channel value: two lower-case hexadecimal digits. */
  function Hex2(n: nat): (r: string)
    requires n < 256
    ensures |r| == 2 && r[0] in HexDigits && r[1] in HexDigits
  {
    [HexDigits[n / 16], HexDigits[n % 16]]
  }

  /** `min(255, c + 30)` */
  function Brighten(c: int): int
  {
    if c + 30 < 255 then c + 30 else 255
  }

  /** The slice of channel `k` (0 red, 1 green, 2 blue): `color[i:i+2]` for i in (1, 3, 5). */
  function Channel(color: string, k: nat): (r: string)
    requires k < 3
    ensures |r| <= 2
  {
    Slice(color, 1 + 2 * k, 3 + 2 * k)
  }

  /** `lighten_color`; None where one of the three `int(..., 16)` calls raises. */
  function Lighten(color: string): Option<string>
  {
    if |color| > 0 && color[0] == '#' then
      var r := ParseHex(Channel(color, 0));
      var g := ParseHex(Channel(color, 1));
      var b := ParseHex(Channel(color, 2));
      if r.None? || g.None? || b.None? then None
      else Some("#" + Hex2(Brighten(r.value)) + Hex2(Brighten(g.value)) + Hex2(Brighten(b.value)))
    else Some(color)
  }

  /** Reading back a formatted channel gives the value that was formatted. */
  lemma ParseHex2(n: nat)
    requires n < 256
    ensures ParseHex(Hex2(n)) == Some(n)
  {
    var t := Hex2(n);
    assert DigitValue(t[0]) == Some(n / 16) by { DigitOfValue(n / 16); }
    assert DigitValue(t[1]) == Some(n % 16) by { DigitOfValue(n % 16); }
  }

  lemma DigitOfValue(d: nat)
    requires d < 16
    ensures DigitValue(HexDigits[d]) == Some(d)
  {
    assert d in {0, 1, 2, 3, 4, 5, 6, 7, 8, 9, 10, 11, 12, 13, 14, 15};
  }

  /** The three channel values of a colour that `lighten_color` accepts. */
  lemma {:induction false} LightenedForm(color: string)
    requires |color| > 0 && color[0] == '#'
    requires Lighten(color).Some?
    ensures forall k :: 0 <= k < 3 ==> ParseHex(Channel(color, k)).Some?
    ensures Lighten(color).value ==
      "#" + Hex2(Brighten(ParseHex(Channel(color, 0)).value))
          + Hex2(Brighten(ParseHex(Channel(color, 1)).value))
          + Hex2(Brighten(ParseHex(Channel(color, 2)).value))
  {
    forall k | 0 <= k < 3
      ensures ParseHex(Channel(color, k)).Some?
    {
      if k == 0 {} else if k == 1 {} else {}
    }
  }

  /** Cutting channel `k` out of '#' and three two-digit channels gives channel `k` back. */
  lemma ChannelOfJoined(hr: string, hg: string, hb: string, k: nat)
    requires |hr| == 2 && |hg| == 2 && |hb| == 2 && k < 3
    ensures Channel("#" + hr + hg + hb, k) == [hr, hg, hb][k]
  {
    var out := "#" + hr + hg + hb;
    assert out[1..3] == hr;
    assert out[3..5] == hg;
    assert out[5..7] == hb;
  }

  /**
    A lightened colour is '#' and six lower-case hex digits, and reading each
    of its channels back gives `min(255, c + 30)` of the input's channel `c`,
    never less than `c` and never above 255.
   */
  lemma LightenedChannels(color: string, k: nat)
    requires |color| > 0 && color[0] == '#'
    requires k < 3
    ensures Lighten(color).Some? ==>
      var out := Lighten(color).value;
      && |out| == 7 && out[0] == '#'
      && (forall p :: 1 <= p < 7 ==> out[p] in HexDigits)
      && var c := ParseHex(Channel(color, k));
         var back := ParseHex(Channel(out, k));
         && c.Some? && back == Some(Brighten(c.value))
         && c.value <= back.value <= 255
  {
    if Lighten(color).Some? {
      LightenedForm(color);
      var r := ParseHex(Channel(color, 0)).value;
      var g := ParseHex(Channel(color, 1)).value;
      var b := ParseHex(Channel(color, 2)).value;
      var hr, hg, hb := Hex2(Brighten(r)), Hex2(Brighten(g)), Hex2(Brighten(b));
      var out := "#" + hr + hg + hb;
      assert Lighten(color).value == out;
      forall p | 1 <= p < 7
        ensures out[p] in HexDigits
      {
        if p < 3 { assert out[p] == hr[p - 1]; }
        else if p < 5 { assert out[p] == hg[p - 3]; }
        else { assert out[p] == hb[p - 5]; }
      }
      ChannelOfJoined(hr, hg, hb, k);
      var c := ParseHex(Channel(color, k)).value;
      assert Channel(out, k) == Hex2(Brighten(c));
      ParseHex2(Brighten(c));
    }
  }

  /** Lightening fails exactly when a channel slice is not a hexadecimal number. */
  lemma LightenFails(color: string)
    requires |color| > 0 && color[0] == '#'
    ensures Lighten(color).None? <==> exists k :: 0 <= k < 3 && ParseHex(Channel(color, k)).None?
  {
    if Lighten(color).None? {
      var k := if ParseHex(Channel(color, 0)).None? then 0
        else if ParseHex(Channel(color, 1)).None? then 1 else 2;
      assert ParseHex(Channel(color, k)).None?;
    } else {
      LightenedForm(color);
    }
  }

  /** A string without the leading '#' is returned untouched. */
  lemma NonHexUntouched(color: string)
    requires |color| == 0 || color[0] != '#'
    ensures Lighten(color) == Some(color)
  {
  }

  /** The hover colour of the "Next Round" button ("#6366f1"). */
  lemma LightenAccent()
    ensures Lighten("#6366f1") == Some("#8184ff")
  {
    assert Channel("#6366f1", 0) == "63" && ParseHex("63") == Some(99);
    assert Channel("#6366f1", 1) == "66" && ParseHex("66") == Some(102);
    assert Channel("#6366f1", 2) == "f1" && ParseHex("f1") == Some(241);
    assert Brighten(99) == 129 && Brighten(102) == 132 && Brighten(241) == 255;
    assert Hex2(129) == "81" && Hex2(132) == "84" && Hex2(255) == "ff";
    assert "#" + "81" + "84" + "ff" == "#8184ff";
  }

  /** A colour with only four characters makes `int("", 16)` raise. */
  lemma LightenShortColour()
    ensures Lighten("#abc") == None
  {
    assert Channel("#abc", 2) == "";
  }
}
