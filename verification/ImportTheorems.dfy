/** What the text of a configuration makes of the table of points and of the answers to an
    interrogation, read off the entries. */
module ImportTheorems {
  import opened Machine
  import opened Protocol
  import opened Points
  import opened ProcessImage
  import opened ExchangeImport
  import GiGroups
  import Interrogation
  import Terms

  // ---------------------------------------------------------------- the list of groups

  /** A token that names the station, which is group 0, or one of the sixteen groups. */
  predicate NamesGroup(t: string, g: nat) {
    if g == 0 then t == "station" else g <= 16 && GiGroups.AllDigits(t) && GiGroups.Number(t) == g
  }

  predicate IsGroupName(t: string) {
    t == "station" || (GiGroups.AllDigits(t) && 1 <= GiGroups.Number(t) <= 16)
  }

  /** A token that ends the whole import: no digit at all, or a number no 32-bit integer holds. */
  predicate EndsImport(t: string) {
    GiGroups.AllDigits(t) && (t == "" || GiGroups.Number(t) >= 2147483648)
  }

  /** The text is these tokens with commas between them. */
  ghost predicate Splits(text: string, ts: seq<string>) {
    |ts| >= 1 && GiGroups.Listed(ts) == text && forall t :: t in ts ==> ',' !in t
  }

  /** The place of the first token that names no group; `|ts|` if all do. */
  ghost predicate FirstOther(ts: seq<string>, k: nat) {
    k <= |ts| && (k < |ts| ==> !IsGroupName(ts[k])) && forall j :: 0 <= j < k ==> IsGroupName(ts[j])
  }

  /** Whether the point of an entry is asked for by a group. */
  ghost predicate AsksFor(groups: GroupSetting, g: nat) {
    match groups
    case NoSetting => g == 0
    case NotText => false
    case GroupText(text) =>
      text != ""
      && exists ts: seq<string>, k: nat :: Splits(text, ts) && FirstOther(ts, k)
           && if k < |ts| then !EndsImport(ts[k]) && g == 0 else exists t :: t in ts && NamesGroup(t, g)
  }

  ghost predicate GroupsEndImport(groups: GroupSetting) {
    groups.GroupText? && groups.text != ""
    && exists ts: seq<string>, k: nat ::
         Splits(groups.text, ts) && FirstOther(ts, k) && k < |ts| && EndsImport(ts[k])
  }

  /** Every text splits into tokens, and in one way only. */
  lemma {:induction false} EveryTextSplits(text: string)
    ensures Splits(text, GiGroups.Tokens(text))
    ensures forall ts :: Splits(text, ts) ==> ts == GiGroups.Tokens(text)
    decreases |text|
  {
    var i := GiGroups.FirstComma(text);
    if i < |text| {
      EveryTextSplits(text[i + 1..]);
      assert text == text[..i] + "," + text[i + 1..];
      assert GiGroups.Tokens(text)[1..] == GiGroups.Tokens(text[i + 1..]);
    }
    forall ts | Splits(text, ts)
      ensures ts == GiGroups.Tokens(text)
    {
      GiGroups.TokensOfList(ts);
    }
  }

  lemma {:induction false} FirstOtherExists(ts: seq<string>) returns (k: nat)
    ensures FirstOther(ts, k)
    ensures forall j: nat :: FirstOther(ts, j) ==> j == k
  {
    hide IsGroupName;
    k := 0;
    while k < |ts| && IsGroupName(ts[k])
      invariant k <= |ts| && forall j :: 0 <= j < k ==> IsGroupName(ts[j])
    {
      k := k + 1;
    }
  }

  /** One list of tokens and one place in it belong to a text. */
  lemma OnlySplit(text: string) returns (k: nat)
    ensures forall ts: seq<string>, j: nat :: Splits(text, ts) && FirstOther(ts, j) <==>
              ts == GiGroups.Tokens(text) && j == k
  {
    EveryTextSplits(text);
    k := FirstOtherExists(GiGroups.Tokens(text));
  }

  lemma TokenInWords(t: string, g: nat)
    requires g <= 16
    ensures GiGroups.ReadToken(t) == GiGroups.Group(g) <==> NamesGroup(t, g)
    ensures GiGroups.ReadToken(t).Group? <==> IsGroupName(t)
    ensures GiGroups.ReadToken(t).Abort? <==> EndsImport(t)
  {
    hide GiGroups.Number;
    GiGroups.StationIsNoNumber();
    GiGroups.EmptyIsZero();
  }

  /** What the mask of a text is, by its first token that names no group. */
  lemma MaskInWords(text: string, k: nat, g: nat)
    requires text != "" && g <= 16 && FirstOther(GiGroups.Tokens(text), k)
    ensures var ts, mask := GiGroups.Tokens(text), GiGroups.MaskOf(text);
            && (mask.None? <==> k < |ts| && EndsImport(ts[k]))
            && (mask.Some? ==> (GiGroups.Bit(mask.value, g) <==>
                                  if k < |ts| then g == 0 else exists t :: t in ts && NamesGroup(t, g)))
  {
    var ts := GiGroups.Tokens(text);
    forall t
      ensures GiGroups.ReadToken(t) == GiGroups.Group(g) <==> NamesGroup(t, g)
      ensures GiGroups.ReadToken(t).Group? <==> IsGroupName(t)
      ensures GiGroups.ReadToken(t).Abort? <==> EndsImport(t)
    {
      TokenInWords(t, g);
    }
    hide GiGroups.ReadToken, IsGroupName, NamesGroup, EndsImport, GiGroups.Accumulate, GiGroups.Tokens,
         GiGroups.ShiftRight;
    GiGroups.NoBitOfZero(17);
    GiGroups.NoBitOfZero(g);
    if k < |ts| {
      assert ts == ts[..k] + [ts[k]] + ts[k + 1..];
      GiGroups.FirstBadTokenDecides(0, ts[..k], ts[k], ts[k + 1..]);
      StationBit(g);
    } else {
      GiGroups.AccumulatedBits(0, ts);
    }
  }

  lemma StationBit(g: nat)
    ensures GiGroups.Bit(GiGroups.STATION_MASK, g) <==> g == 0
  {
    if g > 0 {
      GiGroups.NoBitOfZero(g - 1);
    }
  }

  /** The mask of any setting: it asks for the station alone if there is no setting or a token is bad,
      for nothing if the text is empty, and for the groups named otherwise. */
  lemma GroupsInWords(groups: GroupSetting, g: nat)
    requires g <= 16 && !groups.NotText?
    ensures var mask := EntryMask(groups);
            && (mask.None? <==> GroupsEndImport(groups))
            && (mask.Some? ==> (GiGroups.Bit(mask.value, g) <==> AsksFor(groups, g)))
  {
    hide GiGroups.ShiftRight, IsGroupName, NamesGroup, EndsImport, Splits, FirstOther, GiGroups.Tokens;
    if groups.GroupText? && groups.text != "" {
      hide GiGroups.MaskOf, GiGroups.Bit;
      var k := OnlySplit(groups.text);
      assert FirstOther(GiGroups.Tokens(groups.text), k);
      MaskInWords(groups.text, k, g);
    } else {
      StationBit(g);
      GiGroups.NoBitOfZero(g);
    }
  }

  // ---------------------------------------------------------------- one entry

  /** The import ends at this entry. */
  ghost predicate Ends(e: Entry) {
    e.Broken? || (e.Entry? && !e.groups.NotText? && (GroupsEndImport(e.groups) || e.address.Malformed?))
  }

  /** The import goes on with the next data point. */
  predicate Leaves(e: Entry) {
    e.Entry? && e.groups.NotText?
  }

  /** The entry defines a point with these addresses. */
  ghost predicate Defines(e: Entry, ca: int, ioa: int) {
    && e.Entry? && !e.groups.NotText? && !GroupsEndImport(e.groups) && e.address == Address(ca, ioa)
    && (Terms.IsCommandType(e.typeId) || Terms.IsMonitoringType(e.typeId))
  }

  /** The point it defines. */
  ghost predicate IsPointOf(p: Point, e: Entry)
    requires e.Entry?
  {
    && Terms.IsOfKind(p.dataType, e.typeId) && (p.isCommand <==> Terms.IsCommandType(e.typeId))
    && e.address == Address(p.ca, p.ioa)
    && p.content == InitialContent(p.dataType) && p.ts == None
    && forall g: nat :: g <= 16 ==> (GiGroups.Bit(p.giGroups, g) <==> AsksFor(e.groups, g))
  }

  lemma EntryInWords(e: Entry)
    ensures VerdictOf(e).GiveUp? <==> Ends(e)
    ensures VerdictOf(e).SkipRest? <==> Leaves(e)
    ensures forall ca, ioa ::
              (PointOf(e).Some? && PointOf(e).value.ca == ca && PointOf(e).value.ioa == ioa) <==> Defines(e, ca, ioa)
    ensures PointOf(e).Some? ==> IsPointOf(PointOf(e).value, e)
  {
    if e.Entry? {
      Terms.TypesByNumber(e.typeId, SP, true);
      hide GroupsEndImport, EntryMask, AsksFor, IsSupportedCommandType, IsSupportedMonitoringType, TypeIdToDataType,
           GiGroups.ShiftRight;
      if !e.groups.NotText? {
        GroupsInWords(e.groups, 0);
        forall g: nat | g <= 16
          ensures EntryMask(e.groups).Some? ==> (GiGroups.Bit(EntryMask(e.groups).value, g) <==> AsksFor(e.groups, g))
        {
          GroupsInWords(e.groups, g);
        }
      }
    }
  }

  /** From the text of a configuration to the answer: whatever an entry says, its point is answered
      for exactly if it is a monitoring point and its groups ask for it. */
  lemma EntryIsAnsweredIff(e: Entry, qoi: int)
    requires QOI_STATION <= qoi <= QOI_GROUP_16
    ensures Interrogation.IsAnswered(PointOf(e), qoi) <==>
              && e.Entry? && e.address.Address? && Terms.IsMonitoringType(e.typeId) && AsksFor(e.groups, qoi - 20)
  {
    EntryInWords(e);
    hide PointOf, AsksFor, GroupsEndImport, GiGroups.ShiftRight;
    if PointOf(e).Some? {
      assert Defines(e, PointOf(e).value.ca, PointOf(e).value.ioa);
    }
    if e.Entry? && e.address.Address? {
      assert Defines(e, e.address.ca, e.address.ioa) ==> PointOf(e).Some?;
      NoGroupsOfEnd(e.groups, qoi - 20);
    }
  }

  lemma NoGroupsOfEnd(groups: GroupSetting, g: nat)
    ensures AsksFor(groups, g) ==> !GroupsEndImport(groups) && !groups.NotText?
  {
    hide IsGroupName, NamesGroup, EndsImport, Splits, FirstOther, GiGroups.Tokens;
    if groups.GroupText? {
      var k := OnlySplit(groups.text);
    }
  }

  // ---------------------------------------------------------------- the whole import

  /** The import looks at entry `j` of a data point, once it looks at the data point. */
  ghost predicate Looks(es: seq<Entry>, j: nat) {
    j < |es| && forall i :: 0 <= i < j ==> !Ends(es[i]) && !Leaves(es[i])
  }

  /** The import goes on after a data point. */
  ghost predicate GoesOn(es: seq<Entry>) {
    forall j: nat :: Looks(es, j) ==> !Ends(es[j])
  }

  ghost predicate Reached(datapoints: seq<seq<Entry>>, i: nat, j: nat) {
    i < |datapoints| && Looks(datapoints[i], j) && forall h :: 0 <= h < i ==> GoesOn(datapoints[h])
  }

  /** The last entry of a data point that defines a point with these addresses. */
  ghost predicate LastOf(es: seq<Entry>, ca: int, ioa: int, j: nat) {
    && Looks(es, j) && Defines(es[j], ca, ioa)
    && forall k: nat :: Looks(es, k) && Defines(es[k], ca, ioa) ==> k <= j
  }

  ghost predicate NoneOf(es: seq<Entry>, ca: int, ioa: int) {
    forall j: nat :: Looks(es, j) ==> !Defines(es[j], ca, ioa)
  }

  lemma LooksTail(es: seq<Entry>, j: nat)
    requires es != []
    ensures Looks(es, j) <==> j == 0 || (!Ends(es[0]) && !Leaves(es[0]) && Looks(es[1..], j - 1))
  {
    hide Ends, Leaves;
    if j > 0 && Looks(es[1..], j - 1) && !Ends(es[0]) && !Leaves(es[0]) {
      assert forall i :: 0 < i < j ==> es[i] == es[1..][i - 1];
    }
    if j > 0 && Looks(es, j) {
      assert forall i :: 0 <= i < j - 1 ==> es[1..][i] == es[i + 1];
    }
  }

  lemma {:induction false} GoesOnInWords(es: seq<Entry>)
    ensures EntriesPoints(es).1 <==> GoesOn(es)
  {
    if es != [] {
      hide Looks, Ends, Leaves, VerdictOf, PointOf;
      EntryInWords(es[0]);
      GoesOnInWords(es[1..]);
      forall j: nat
        ensures Looks(es, j) <==> j == 0 || (!Ends(es[0]) && !Leaves(es[0]) && Looks(es[1..], j - 1))
      {
        LooksTail(es, j);
      }
      assert Looks(es, 0);
      forall j: nat | Looks(es[1..], j) && !Ends(es[0]) && !Leaves(es[0])
        ensures Looks(es, j + 1)
      {
        LooksTail(es, j + 1);
      }
      LooksWithin(es[1..]);
    }
  }

  lemma LooksWithin(es: seq<Entry>)
    ensures forall j: nat :: Looks(es, j) ==> j < |es|
  {
  }

  /** How the last entry of a list is that of its tail or its head. */
  lemma LastFromTail(es: seq<Entry>, ca: int, ioa: int)
    requires es != [] && !Ends(es[0]) && !Leaves(es[0])
    ensures forall j: nat :: LastOf(es[1..], ca, ioa, j) ==> LastOf(es, ca, ioa, j + 1)
    ensures NoneOf(es[1..], ca, ioa) ==>
              if Defines(es[0], ca, ioa) then LastOf(es, ca, ioa, 0) else NoneOf(es, ca, ioa)
  {
    hide Looks, Ends, Leaves, Defines;
    LooksWithin(es);
    LooksWithin(es[1..]);
    forall k: nat
      ensures Looks(es, k) <==> k == 0 || Looks(es[1..], k - 1)
    {
      LooksTail(es, k);
    }
    assert forall k: nat :: k < |es| - 1 ==> es[1..][k] == es[k + 1];
  }

  /** Among the points of a data point the last one with these addresses is that of its last entry. */
  lemma {:induction false} LastInWords(es: seq<Entry>, ca: int, ioa: int) returns (j: int)
    ensures j < 0 ==> LastAt(EntriesPoints(es).0, ca, ioa) < 0 && NoneOf(es, ca, ioa)
    ensures j >= 0 ==> LastAt(EntriesPoints(es).0, ca, ioa) >= 0 && LastOf(es, ca, ioa, j)
                       && PointOf(es[j]) == Some(EntriesPoints(es).0[LastAt(EntriesPoints(es).0, ca, ioa)])
  {
    if es == [] {
      return -1;
    }
    EntryInWords(es[0]);
    LastOfNothing(ca, ioa);
    if VerdictOf(es[0]).Next? {
      hide Ends, Leaves, VerdictOf, PointOf, Defines, IsPointOf, LastAt, LastOf, NoneOf;
      LastFromTail(es, ca, ioa);
      var i := LastInWords(es[1..], ca, ioa);
      PointsOfTail(es, ca, ioa);
      j := if i >= 0 then i + 1 else if Defines(es[0], ca, ioa) then 0 else -1;
      assert i >= 0 ==> LastOf(es[1..], ca, ioa, i);
      assert i >= 0 ==> LastOf(es, ca, ioa, i + 1);
    } else {
      NoneWhereStopped(es, ca, ioa);
      j := -1;
    }
  }

  lemma NoneWhereStopped(es: seq<Entry>, ca: int, ioa: int)
    requires es != [] && (Ends(es[0]) || Leaves(es[0]))
    ensures NoneOf(es, ca, ioa)
  {
  }

  lemma PointsOfTail(es: seq<Entry>, ca: int, ioa: int)
    requires es != [] && VerdictOf(es[0]).Next?
    ensures var points, rest := EntriesPoints(es).0, EntriesPoints(es[1..]).0;
            var k, k' := LastAt(points, ca, ioa), LastAt(rest, ca, ioa);
            if k' >= 0 then k >= 0 && points[k] == rest[k']
            else if Defines(es[0], ca, ioa) then k >= 0 && Some(points[k]) == PointOf(es[0]) else k < 0
  {
    EntryInWords(es[0]);
    hide Ends, Leaves, PointOf, VerdictOf, Defines, IsPointOf, LastAt;
    var points, rest := EntriesPoints(es).0, EntriesPoints(es[1..]).0;
    if PointOf(es[0]).Some? {
      assert points == [PointOf(es[0]).value] + rest;
      assert points[1..] == rest;
      LastOfTail(points, ca, ioa);
    } else {
      assert points == rest;
      assert !Defines(es[0], ca, ioa);
    }
  }

  lemma LastOfNothing(ca: int, ioa: int)
    ensures LastAt([], ca, ioa) == -1
  {
  }

  /** The last of all entries the import reaches that define a point with these addresses. */
  ghost predicate LastDefinition(datapoints: seq<seq<Entry>>, ca: int, ioa: int, i: nat, j: nat) {
    && Reached(datapoints, i, j) && Defines(datapoints[i][j], ca, ioa)
    && forall h: nat, k: nat :: Reached(datapoints, h, k) && Defines(datapoints[h][k], ca, ioa) ==>
         h < i || (h == i && k <= j)
  }

  ghost predicate NoDefinition(datapoints: seq<seq<Entry>>, ca: int, ioa: int) {
    forall i: nat, j: nat :: Reached(datapoints, i, j) ==> !Defines(datapoints[i][j], ca, ioa)
  }

  lemma ReachedTail(datapoints: seq<seq<Entry>>, i: nat, j: nat)
    requires datapoints != []
    ensures Reached(datapoints, i, j) <==>
              if i == 0 then Looks(datapoints[0], j) else GoesOn(datapoints[0]) && Reached(datapoints[1..], i - 1, j)
  {
    hide Looks, GoesOn;
    if i > 0 && GoesOn(datapoints[0]) && Reached(datapoints[1..], i - 1, j) {
      assert forall h :: 0 < h < i ==> datapoints[h] == datapoints[1..][h - 1];
    }
    if i > 0 && Reached(datapoints, i, j) {
      assert forall h :: 0 <= h < i - 1 ==> datapoints[1..][h] == datapoints[h + 1];
    }
  }

  /** The last definition is that of the later data points, or else of the first one. */
  lemma LastDefinitionFromTail(datapoints: seq<seq<Entry>>, ca: int, ioa: int)
    requires datapoints != []
    ensures GoesOn(datapoints[0]) ==>
              forall i: nat, j: nat :: LastDefinition(datapoints[1..], ca, ioa, i, j) ==>
                LastDefinition(datapoints, ca, ioa, i + 1, j)
    ensures !GoesOn(datapoints[0]) || NoDefinition(datapoints[1..], ca, ioa) ==>
              && (forall j: nat :: LastOf(datapoints[0], ca, ioa, j) ==> LastDefinition(datapoints, ca, ioa, 0, j))
              && (NoneOf(datapoints[0], ca, ioa) ==> NoDefinition(datapoints, ca, ioa))
  {
    ReachedWithin(datapoints);
    ReachedWithin(datapoints[1..]);
    forall i: nat, j: nat
      ensures Reached(datapoints, i, j) <==>
                if i == 0 then Looks(datapoints[0], j) else GoesOn(datapoints[0]) && Reached(datapoints[1..], i - 1, j)
    {
      ReachedTail(datapoints, i, j);
    }
    hide Looks, GoesOn, Reached, Defines;
    assert forall i: nat :: i < |datapoints| - 1 ==> datapoints[1..][i] == datapoints[i + 1];
  }

  lemma ReachedWithin(datapoints: seq<seq<Entry>>)
    ensures forall i: nat, j: nat :: Reached(datapoints, i, j) ==> i < |datapoints| && j < |datapoints[i]|
  {
  }

  lemma {:induction false} LastOfAppend(a: seq<Point>, b: seq<Point>, ca: int, ioa: int)
    ensures var k := LastAt(a + b, ca, ioa);
            if LastAt(b, ca, ioa) >= 0 then k >= 0 && (a + b)[k] == b[LastAt(b, ca, ioa)]
            else if LastAt(a, ca, ioa) >= 0 then k >= 0 && (a + b)[k] == a[LastAt(a, ca, ioa)]
            else k < 0
  {
    if b == [] {
      assert a + b == a;
    } else {
      assert (a + b)[..|a + b| - 1] == a + b[..|b| - 1];
      LastOfAppend(a, b[..|b| - 1], ca, ioa);
    }
  }

  /** Among all points the last one with these addresses is that of the last definition. */
  lemma {:induction false} DefinedInWords(datapoints: seq<seq<Entry>>, ca: int, ioa: int) returns (i: int, j: int)
    ensures i < 0 ==> LastAt(Defined(datapoints), ca, ioa) < 0 && NoDefinition(datapoints, ca, ioa)
    ensures i >= 0 ==> j >= 0 && LastDefinition(datapoints, ca, ioa, i, j)
                       && LastAt(Defined(datapoints), ca, ioa) >= 0
                       && PointOf(datapoints[i][j]) == Some(Defined(datapoints)[LastAt(Defined(datapoints), ca, ioa)])
  {
    i, j := -1, -1;
    if datapoints != [] {
      var (points, goesOn) := EntriesPoints(datapoints[0]);
      GoesOnInWords(datapoints[0]);
      LastDefinitionFromTail(datapoints, ca, ioa);
      hide EntriesPoints, PointOf, LastAt, LastOf, LastDefinition, NoneOf, NoDefinition, GoesOn;
      j := LastInWords(datapoints[0], ca, ioa);
      i := if j >= 0 then 0 else -1;
      if goesOn {
        LastOfAppend(points, Defined(datapoints[1..]), ca, ioa);
        var h, k := DefinedInWords(datapoints[1..], ca, ioa);
        if h >= 0 {
          i, j := h + 1, k;
        }
      }
    }
  }

  /** A cell holds the point of the last definition of its addresses among the entries that the import
      reaches; without one there is no point. */
  ghost predicate IsCellOf(cell: Option<Point>, datapoints: seq<seq<Entry>>, ca: int, ioa: int) {
    if cell.None? then NoDefinition(datapoints, ca, ioa)
    else exists i: nat, j: nat :: LastDefinition(datapoints, ca, ioa, i, j)
                                  && IsPointOf(cell.value, datapoints[i][j])
  }

  /** The imported table, cell by cell. */
  lemma CellInWords(datapoints: seq<seq<Entry>>, ca: int, ioa: int)
    ensures IsCellOf(PointAt(Imported(datapoints), ca, ioa), datapoints, ca, ioa)
  {
    ImportedTable(datapoints);
    hide Imported, Defined, PointOf, IsPointOf, LastAt, NoDefinition, GiGroups.ShiftRight;
    var i, j := DefinedInWords(datapoints, ca, ioa);
    if i >= 0 {
      EntryInWords(datapoints[i][j]);
      assert LastDefinition(datapoints, ca, ioa, i, j);
    }
  }
}
