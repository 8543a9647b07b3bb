/** The interrogation groups of a point: the text of the configuration, the bit mask made of it,
    and the test an interrogation applies to the mask. */
module GiGroups {
  import opened Machine
  import opened Protocol

  // ---------------------------------------------------------------- bits of a non-negative int

  /** `mask >> k` */
  function ShiftRight(mask: nat, k: nat): nat {
    if k == 0 then mask else ShiftRight(mask / 2, k - 1)
  }

  /** `(mask >> k) & 1` */
  predicate Bit(mask: nat, k: nat) {
    ShiftRight(mask, k) % 2 == 1
  }

  /** `mask | (1 << k)`, bit by bit from the lowest */
  function WithBit(mask: nat, k: nat): nat {
    if k == 0 then (if mask % 2 == 1 then mask else mask + 1)
    else 2 * WithBit(mask / 2, k - 1) + mask % 2
  }

  /** Setting a bit sets that bit and no other. */
  lemma {:induction false} WithBitSets(mask: nat, k: nat, j: nat)
    ensures Bit(WithBit(mask, k), j) <==> j == k || Bit(mask, j)
    decreases k
  {
    if k > 0 {
      assert WithBit(mask, k) / 2 == WithBit(mask / 2, k - 1);
      if j > 0 {
        WithBitSets(mask / 2, k - 1, j - 1);
      }
    }
  }

  /** A mask with nothing above bit `n - 1` stays so when a lower bit is set. */
  lemma {:induction false} WithBitStaysBelow(mask: nat, k: nat, n: nat)
    requires k < n && ShiftRight(mask, n) == 0
    ensures ShiftRight(WithBit(mask, k), n) == 0
    decreases n
  {
    if k > 0 {
      assert WithBit(mask, k) / 2 == WithBit(mask / 2, k - 1);
      WithBitStaysBelow(mask / 2, k - 1, n - 1);
    }
  }

  function Pow2(k: nat): nat {
    if k == 0 then 1 else 2 * Pow2(k - 1)
  }

  /** Nothing left after `k` shifts means the number has `k` bits. */
  lemma {:induction false} ShiftsOut(mask: nat, k: nat)
    ensures ShiftRight(mask, k) == 0 <==> mask < Pow2(k)
    decreases k
  {
    if k > 0 {
      ShiftsOut(mask / 2, k - 1);
    }
  }

  lemma Pow2Of17()
    ensures Pow2(17) == 0x2_0000
  {
    assert Pow2(8) == 256;
    assert Pow2(16) == 65536;
  }

  // ---------------------------------------------------------------- tokens

  /** What `getline` with a comma delivers, one after the other, from a non-empty text. */
  function Tokens(text: string): (ts: seq<string>)
    ensures |ts| >= 1
  {
    var i := FirstComma(text);
    if i == |text| then [text] else [text[..i]] + Tokens(text[i + 1..])
  }

  function FirstComma(text: string): (i: nat)
    ensures i <= |text| && ',' !in text[..i]
    ensures i < |text| ==> text[i] == ','
  {
    if text == [] then 0
    else if text[0] == ',' then 0
    else
      var rest := FirstComma(text[1..]);
      assert text[..1 + rest] == [text[0]] + text[1..][..rest];
      1 + rest
  }

  /** The text that lists these tokens. */
  function Listed(ts: seq<string>): string
    requires |ts| >= 1
  {
    if |ts| == 1 then ts[0] else ts[0] + "," + Listed(ts[1..])
  }

  /** Every list of comma-free tokens is read back token by token. */
  lemma {:induction false} TokensOfList(ts: seq<string>)
    requires |ts| >= 1 && forall t :: t in ts ==> ',' !in t
    ensures Tokens(Listed(ts)) == ts
  {
    hide Tokens;
    var text := Listed(ts);
    if |ts| == 1 {
      FirstToken(ts[0], "");
      assert ts[0] + "" == text;
    } else {
      assert text == ts[0] + ("," + Listed(ts[1..]));
      FirstToken(ts[0], "," + Listed(ts[1..]));
      assert ("," + Listed(ts[1..]))[1..] == Listed(ts[1..]);
      TokensOfList(ts[1..]);
    }
  }

  lemma {:induction false} FirstCommaAfter(t: string, rest: string)
    requires ',' !in t && (rest == "" || rest[0] == ',')
    ensures FirstComma(t + rest) == |t|
  {
    if t == "" {
      assert t + rest == rest;
    } else {
      assert (t + rest)[1..] == t[1..] + rest;
      FirstCommaAfter(t[1..], rest);
    }
  }

  lemma FirstToken(t: string, rest: string)
    requires ',' !in t && (rest == "" || rest[0] == ',')
    ensures Tokens(t + rest) == [t] + if rest == "" then [] else Tokens(rest[1..])
  {
    FirstCommaAfter(t, rest);
    assert (t + rest)[..|t|] == t;
    if rest == "" {
      assert t + rest == t;
    } else {
      assert (t + rest)[|t| + 1..] == rest[1..];
    }
  }

  predicate IsDigit(c: char) {
    '0' <= c <= '9'
  }

  predicate AllDigits(t: string) {
    forall c :: c in t ==> IsDigit(c)
  }

  /** The number a string of digits denotes. */
  function Number(t: string): nat
    requires AllDigits(t)
  {
    if t == "" then 0
    else
      assert t[|t| - 1] in t;
      10 * Number(t[..|t| - 1]) + (t[|t| - 1] as int - '0' as int)
  }

  /** How the import takes one token. `Abort` ends the whole import: `stoi` throws. */
  datatype Token = Group(number: nat) | Bad | Abort

  function ReadToken(t: string): Token {
    if t == "station" then Group(0)
    else if AllDigits(t) then
      if t == "" || Number(t) >= TWO_31 then Abort
      else if Number(t) <= 0 || Number(t) >= 17 then Bad
      else Group(Number(t))
    else Bad
  }

  /** The station mask, used when a token is bad or the setting is missing or no string. */
  const STATION_MASK: nat := 1

  /** The token loop: bits accumulate until a token is bad or aborts. `None` is an aborted import. */
  function Accumulate(mask: nat, ts: seq<string>): Option<nat>
    decreases ts
  {
    if ts == [] then Some(mask)
    else
      match ReadToken(ts[0])
      case Group(g) => Accumulate(WithBit(mask, g), ts[1..])
      case Bad => Some(STATION_MASK)
      case Abort => None
  }

  function MaskOf(text: string): Option<nat> {
    if text == "" then Some(0) else Accumulate(0, Tokens(text))
  }

  /** `getline` from the read position: the token up to a comma, which is consumed, or up to the
      end of the text, after which the stream is no longer good. */
  method GetLine(text: string, pos: nat) returns (token: string, next: nat, good: bool)
    requires pos <= |text|
    ensures next <= |text| && (good ==> pos < next)
    ensures Tokens(text[pos..]) == [token] + if good then Tokens(text[next..]) else []
  {
    hide Tokens;
    next := pos;
    while next < |text| && text[next] != ','
      invariant pos <= next <= |text| && ',' !in text[pos..next]
    {
      assert text[pos..next + 1] == text[pos..next] + [text[next]];
      next := next + 1;
    }
    token := text[pos..next];
    FirstToken(token, text[next..]);
    assert text[pos..] == token + text[next..];
    good := next < |text|;
    if good {
      assert text[next..][1..] == text[next + 1..];
      next := next + 1;
    }
  }

  /** The import's loop over the stream; `None` is the exception that ends the import. */
  method ImportGroups(text: string) returns (mask: Option<nat>)
    ensures mask == MaskOf(text)
  {
    hide Tokens, WithBit;
    if text == "" {
      return Some(0);
    }
    var groups: nat, pos: nat, good := 0, 0, true;
    assert text[0..] == text;
    while good
      invariant pos <= |text|
      invariant Accumulate(0, Tokens(text)) == if good then Accumulate(groups, Tokens(text[pos..])) else Some(groups)
      decreases good, |text| - pos
    {
      ghost var tokens := Tokens(text[pos..]);
      var token;
      token, pos, good := GetLine(text, pos);
      assert tokens[1..] == if good then Tokens(text[pos..]) else [];
      if token == "station" {
        groups := WithBit(groups, 0);
      } else if AllDigits(token) {
        if token == "" || Number(token) >= TWO_31 {
          return None;
        }
        if Number(token) <= 0 || Number(token) >= 17 {
          return Some(STATION_MASK);
        }
        groups := WithBit(groups, Number(token));
      } else {
        return Some(STATION_MASK);
      }
    }
    return Some(groups);
  }

  // ---------------------------------------------------------------- what the mask means

  ghost predicate AllGroups(ts: seq<string>) {
    forall t :: t in ts ==> ReadToken(t).Group?
  }

  /** Whether some token lists this group; group 0 is the station. */
  ghost predicate Lists(ts: seq<string>, g: nat) {
    exists t :: t in ts && ReadToken(t) == Group(g)
  }

  /** The test of `sendInterrogationResponse`. */
  predicate IsAsked(mask: nat, qoi: int)
    requires QOI_STATION <= qoi
  {
    Bit(mask, qoi - QOI_STATION)
  }

  lemma {:induction false} AccumulatedBits(mask: nat, ts: seq<string>)
    requires AllGroups(ts) && ShiftRight(mask, 17) == 0
    ensures Accumulate(mask, ts).Some? && ShiftRight(Accumulate(mask, ts).value, 17) == 0
    ensures forall j: nat :: Bit(Accumulate(mask, ts).value, j) <==> Bit(mask, j) || Lists(ts, j)
    decreases ts
  {
    hide ReadToken, ShiftRight, WithBit;
    if ts == [] {
    } else {
      GroupsAreSmall(ts[0]);
      var g := ReadToken(ts[0]).number;
      WithBitStaysBelow(mask, g, 17);
      AccumulatedBits(WithBit(mask, g), ts[1..]);
      forall j: nat
        ensures Bit(Accumulate(mask, ts).value, j) <==> Bit(mask, j) || Lists(ts, j)
      {
        WithBitSets(mask, g, j);
        ListsSplits(ts, j);
      }
    }
  }

  lemma GroupsAreSmall(t: string)
    ensures ReadToken(t).Group? ==> ReadToken(t).number <= 16
  {
  }

  lemma ListsSplits(ts: seq<string>, j: nat)
    requires ts != []
    ensures Lists(ts, j) <==> ReadToken(ts[0]) == Group(j) || Lists(ts[1..], j)
  {
    hide ReadToken;
    if ReadToken(ts[0]) == Group(j) {
      assert ts[0] in ts;
    }
    if Lists(ts[1..], j) {
      var t :| t in ts[1..] && ReadToken(t) == Group(j);
      assert t in ts;
    }
  }

  lemma {:induction false} NoBitOfZero(j: nat)
    ensures ShiftRight(0, j) == 0
  {
    if j > 0 {
      NoBitOfZero(j - 1);
    }
  }

  /** A token lists the station or a group of 1..16. */
  lemma ListsMeans(ts: seq<string>, g: nat)
    requires g <= 16
    ensures Lists(ts, g) <==> if g == 0 then "station" in ts
                              else exists t :: t in ts && AllDigits(t) && Number(t) == g
  {
    hide Number;
    if g > 0 && exists t :: t in ts && AllDigits(t) && Number(t) == g {
      var t :| t in ts && AllDigits(t) && Number(t) == g;
      StationIsNoNumber();
      EmptyIsZero();
      assert ReadToken(t) == Group(g);
    }
    if g == 0 && "station" in ts {
      assert ReadToken("station") == Group(0);
    }
  }

  lemma StationIsNoNumber()
    ensures !AllDigits("station")
  {
    assert "station"[0] in "station";
  }

  lemma EmptyIsZero()
    ensures Number("") == 0
  {
  }

  /** Group mask round trip: for a list of "station" and numbers 1..16 the mask has 17 bits and an
      interrogation asks for the point exactly if it names the station and "station" is listed, or
      it names a group and that number is listed. */
  lemma MaskRoundTrip(ts: seq<string>, qoi: int)
    requires |ts| >= 1 && (forall t :: t in ts ==> ',' !in t) && AllGroups(ts)
    requires QOI_STATION <= qoi <= QOI_GROUP_16
    ensures MaskOf(Listed(ts)).Some? && MaskOf(Listed(ts)).value < 0x2_0000
    ensures IsAsked(MaskOf(Listed(ts)).value, qoi)
       <==> if qoi == QOI_STATION then "station" in ts
            else exists t :: t in ts && AllDigits(t) && Number(t) == qoi - QOI_STATION
  {
    hide Accumulate, Tokens, Listed, ShiftRight, Pow2, Lists, Number, ReadToken;
    NotEmptyText(ts);
    TokensOfList(ts);
    NoBitOfZero(17);
    NoBitOfZero(qoi - QOI_STATION);
    AccumulatedBits(0, ts);
    ShiftsOut(Accumulate(0, ts).value, 17);
    Pow2Of17();
    ListsMeans(ts, qoi - QOI_STATION);
  }

  /** A text that lists only groups is not the empty text. */
  lemma NotEmptyText(ts: seq<string>)
    requires |ts| >= 1 && AllGroups(ts)
    ensures Listed(ts) != ""
  {
    assert ts[0] in ts;
  }

  lemma {:induction false} AccumulatedStaysSmall(mask: nat, ts: seq<string>)
    requires ShiftRight(mask, 17) == 0
    ensures Accumulate(mask, ts).Some? ==> ShiftRight(Accumulate(mask, ts).value, 17) == 0
    decreases ts
  {
    hide ShiftRight, WithBit;
    if ts == [] {
    } else if ReadToken(ts[0]).Group? {
      WithBitStaysBelow(mask, ReadToken(ts[0]).number, 17);
      AccumulatedStaysSmall(WithBit(mask, ReadToken(ts[0]).number), ts[1..]);
    } else {
      assert ShiftRight(STATION_MASK, 17) == 0 by {
        ShiftsOut(STATION_MASK, 17);
        Pow2Of17();
      }
    }
  }

  /** Whatever the text, an import that goes on has a mask of seventeen bits. */
  lemma EveryMaskIsSmall(text: string)
    ensures MaskOf(text).Some? ==> MaskOf(text).value < 0x2_0000
  {
    hide Accumulate, Tokens;
    if text != "" {
      NoBitOfZero(17);
      AccumulatedStaysSmall(0, Tokens(text));
      Pow2Of17();
      if MaskOf(text).Some? {
        ShiftsOut(MaskOf(text).value, 17);
      }
    }
  }

  /** The first token that is no group decides: a bad one leaves exactly the station mask, whatever
      was listed before or after it; an empty one or an overflowing number aborts the import. */
  lemma {:induction false} FirstBadTokenDecides(mask: nat, good: seq<string>, t: string, rest: seq<string>)
    requires AllGroups(good) && !ReadToken(t).Group?
    ensures Accumulate(mask, good + [t] + rest) == if ReadToken(t).Bad? then Some(STATION_MASK) else None
    decreases good
  {
    hide ReadToken, WithBit;
    var ts := good + [t] + rest;
    if good == [] {
    } else {
      assert good[0] in good;
      assert ts[1..] == good[1..] + [t] + rest;
      FirstBadTokenDecides(WithBit(mask, ReadToken(good[0]).number), good[1..], t, rest);
    }
  }

  /** The same read off the text, with what makes a token bad and what makes it abort. */
  lemma MaskOfAnyList(ts: seq<string>, k: nat)
    requires forall t :: t in ts ==> ',' !in t
    requires k < |ts| && AllGroups(ts[..k]) && !ReadToken(ts[k]).Group? && Listed(ts) != ""
    ensures MaskOf(Listed(ts)) == if ReadToken(ts[k]).Bad? then Some(STATION_MASK) else None
    ensures ReadToken(ts[k]).Abort? <==> AllDigits(ts[k]) && (ts[k] == "" || Number(ts[k]) >= TWO_31)
  {
    hide Accumulate, Tokens, Listed, Number;
    TokensOfList(ts);
    assert ts == ts[..k] + [ts[k]] + ts[k + 1..];
    FirstBadTokenDecides(0, ts[..k], ts[k], ts[k + 1..]);
    StationIsNoNumber();
  }
}
