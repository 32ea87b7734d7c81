/** The channel of each connector: known ones keep their numbers, the others get the lowest free
    ones in the order of their names. */
module Channels {
  type Name = string

  // ---------- names ----------

  predicate HasAt(s: Name, part: Name, i: nat) {
    i <= |s| && part <= s[i..]
  }

  predicate Contains(s: Name, part: Name) {
    exists i :: 0 <= i <= |s| && HasAt(s, part, i)
  }

  predicate IsOutput(n: Name) {
    Contains(n, "HDMI") || Contains(n, "DP")
  }

  // The number a known connector keeps; zero for the others.
  function Fixed(n: Name): nat {
    if Contains(n, "HDMI-A-1") then 1
    else if Contains(n, "HDMI-A-2") then 2
    else if Contains(n, "DP-1") && !Contains(n, "eDP") then 3
    else 0
  }

  // The order of std::string, up to equality.
  predicate Before(a: Name, b: Name) {
    if a == [] then true
    else if b == [] then false
    else a[0] < b[0] || (a[0] == b[0] && Before(a[1..], b[1..]))
  }

  lemma {:induction false} BeforeIsTotal(a: Name, b: Name)
    ensures Before(a, b) || Before(b, a)
    ensures Before(a, b) && Before(b, a) ==> a == b
  {
    if a != [] && b != [] {
      BeforeIsTotal(a[1..], b[1..]);
      assert a == [a[0]] + a[1..] && b == [b[0]] + b[1..];
    }
  }

  lemma {:induction false} BeforeIsTransitive(a: Name, b: Name, c: Name)
    requires Before(a, b) && Before(b, c)
    ensures Before(a, c)
  {
    if a != [] && b != [] && c != [] && a[0] == b[0] && b[0] == c[0] {
      BeforeIsTransitive(a[1..], b[1..], c[1..]);
    }
  }

  // ---------- what the map must be ----------

  ghost predicate Sorted(names: seq<Name>) {
    forall i, j :: 0 <= i < j < |names| ==> Before(names[i], names[j])
  }

  ghost predicate Distinct(names: seq<Name>) {
    forall i, j :: 0 <= i < j < |names| ==> names[i] != names[j]
  }

  function Knowns(names: set<Name>): set<Name> {
    set n | n in names && IsOutput(n) && Fixed(n) > 0
  }

  function Unknowns(names: set<Name>): set<Name> {
    set n | n in names && IsOutput(n) && Fixed(n) == 0
  }

  function FixedChannels(names: set<Name>): set<nat> {
    set n | n in Knowns(names) :: Fixed(n)
  }

  // The channels taken when the turn of an unknown connector comes: the fixed ones, and those of
  // the connectors before it.
  ghost function TakenBefore(names: set<Name>, channels: map<Name, nat>, n: Name): set<nat> {
    FixedChannels(names) + set m | m in channels && m in Unknowns(names) && Before(m, n) && m != n :: channels[m]
  }

  ghost predicate LowestFree(ch: nat, used: set<nat>) {
    0 < ch && ch !in used && forall c :: 0 < c < ch ==> c in used
  }

  // The assignment, stated on the set of names alone.
  ghost predicate Assigned(names: set<Name>, channels: map<Name, nat>) {
    && channels.Keys == Knowns(names) + Unknowns(names)
    && (forall n :: n in Knowns(names) ==> channels[n] == Fixed(n))
    && forall n :: n in Unknowns(names) ==> LowestFree(channels[n], TakenBefore(names, channels, n))
  }

  lemma OneLowestFree(a: nat, b: nat, used: set<nat>)
    requires LowestFree(a, used) && LowestFree(b, used)
    ensures a == b
  {}

  // The unknown connectors that come before one.
  ghost function Earlier(names: set<Name>, n: Name): set<Name> {
    set m | m in Unknowns(names) && Before(m, n) && m != n
  }

  lemma EarlierShrinks(names: set<Name>, m: Name, n: Name)
    requires m in Earlier(names, n)
    ensures Earlier(names, m) < Earlier(names, n)
  {
    forall k | k in Earlier(names, m)
      ensures k in Earlier(names, n)
    {
      BeforeIsTransitive(k, m, n);
      BeforeIsTotal(m, n);
      BeforeIsTotal(k, m);
    }
    assert m !in Earlier(names, m);
  }

  lemma {:induction false} SameChannel(names: set<Name>, a: map<Name, nat>, b: map<Name, nat>, n: Name)
    requires Assigned(names, a) && Assigned(names, b) && n in Unknowns(names)
    ensures a[n] == b[n]
    decreases Earlier(names, n)
  {
    forall m | m in Unknowns(names) && Before(m, n) && m != n
      ensures a[m] == b[m]
    {
      assert m in Earlier(names, n);
      EarlierShrinks(names, m, n);
      SameChannel(names, a, b, m);
    }
    assert TakenBefore(names, a, n) == TakenBefore(names, b, n);
    OneLowestFree(a[n], b[n], TakenBefore(names, a, n));
  }

  // The set of names leaves one assignment only.
  lemma AssignmentIsUnique(names: set<Name>, a: map<Name, nat>, b: map<Name, nat>)
    requires Assigned(names, a) && Assigned(names, b)
    ensures a == b
  {
    forall n | n in a
      ensures a[n] == b[n]
    {
      if n in Unknowns(names) { SameChannel(names, a, b, n); }
    }
  }

  // Two connectors share a channel exactly if both are known under the same number.
  lemma SharedIff(names: set<Name>, channels: map<Name, nat>, m: Name, n: Name)
    requires Assigned(names, channels) && m in channels && n in channels && m != n
    ensures channels[m] == channels[n] <==> Fixed(m) > 0 && Fixed(m) == Fixed(n)
  {
    hide Contains, LowestFree, Before, TakenBefore;
    BeforeIsTotal(m, n);
    if n in Unknowns(names) && (m in Knowns(names) || Before(m, n)) {
      UnknownDiffers(names, channels, m, n);
    } else if m in Unknowns(names) {
      UnknownDiffers(names, channels, n, m);
    }
  }

  lemma UnknownDiffers(names: set<Name>, channels: map<Name, nat>, m: Name, n: Name)
    requires Assigned(names, channels) && m in channels && n in Unknowns(names) && m != n
    requires m in Knowns(names) || Before(m, n)
    ensures channels[m] != channels[n]
  {
    assert m in Knowns(names) ==> Fixed(m) in FixedChannels(names);
  }

  // Names are matched by their parts, so the tenth HDMI connector gets the channel of the first.
  lemma TenthSharesWithFirst(names: set<Name>, channels: map<Name, nat>)
    requires Assigned(names, channels) && "HDMI-A-1" in names && "HDMI-A-10" in names
    ensures "HDMI-A-1" in channels && "HDMI-A-10" in channels && channels["HDMI-A-1"] == channels["HDMI-A-10"] == 1
  {
    var one, ten := "HDMI-A-1", "HDMI-A-10";
    assert HasAt(one, "HDMI", 0) && HasAt(ten, "HDMI", 0);
    assert HasAt(one, "HDMI-A-1", 0) && HasAt(ten, "HDMI-A-1", 0);
    assert one in Knowns(names) && ten in Knowns(names);
  }

  // ---------- names, told otherwise ----------

  // One name is before another if it is a beginning of it, or smaller at the first difference.
  ghost predicate SmallerAt(a: Name, b: Name, i: nat) {
    i < |a| && i < |b| && a[..i] == b[..i] && a[i] < b[i]
  }

  lemma {:induction false} BeforeIff(a: Name, b: Name)
    ensures Before(a, b) <==> a <= b || exists i: nat :: SmallerAt(a, b, i)
  {
    if a != [] && b != [] && a[0] == b[0] {
      var s, t := a[1..], b[1..];
      BeforeIff(s, t);
      assert a == [a[0]] + s && b == [b[0]] + t;
      if exists i: nat :: SmallerAt(s, t, i) {
        var i: nat :| SmallerAt(s, t, i);
        assert a[..i + 1] == [a[0]] + s[..i] && b[..i + 1] == [b[0]] + t[..i];
        assert SmallerAt(a, b, i + 1);
      }
      if exists i: nat :: SmallerAt(a, b, i) {
        var i: nat :| SmallerAt(a, b, i);
        assert i > 0 && s[..i - 1] == a[..i][1..] && t[..i - 1] == b[..i][1..];
        assert SmallerAt(s, t, i - 1);
      }
    } else if a != [] && b != [] && a[0] < b[0] {
      assert SmallerAt(a, b, 0);
    }
  }

  lemma MissesPart(s: Name, part: Name, k: nat)
    requires k < |part| && part[k] !in s
    ensures !Contains(s, part)
  {
    forall i | 0 <= i <= |s|
      ensures !HasAt(s, part, i)
    {
      assert i + k < |s| ==> s[i..][k] == s[i + k];
    }
  }

  // The connectors with numbers of their own, and some that are like them.
  lemma KnownConnectors()
    ensures Fixed("HDMI-A-1") == 1 && Fixed("HDMI-A-2") == 2 && Fixed("DP-1") == 3
    ensures IsOutput("HDMI-A-1") && IsOutput("HDMI-A-2") && IsOutput("DP-1")
  {
    assert HasAt("HDMI-A-1", "HDMI-A-1", 0) && HasAt("HDMI-A-2", "HDMI-A-2", 0) && HasAt("DP-1", "DP-1", 0);
    assert HasAt("HDMI-A-1", "HDMI", 0) && HasAt("HDMI-A-2", "HDMI", 0) && HasAt("DP-1", "DP", 0);
    MissesPart("HDMI-A-2", "HDMI-A-1", 7);
    MissesPart("DP-1", "HDMI-A-1", 0);
    MissesPart("DP-1", "HDMI-A-2", 0);
    MissesPart("DP-1", "eDP", 0);
  }

  lemma UnknownConnectors()
    ensures Fixed("eDP-1") == 0 && Fixed("DP-2") == 0 && IsOutput("eDP-1") && IsOutput("DP-2")
    ensures !IsOutput("DSI-1") && !IsOutput("LVDS-1")
  {
    assert HasAt("eDP-1", "DP", 1) && HasAt("DP-2", "DP", 0) && HasAt("eDP-1", "eDP", 0);
    MissesPart("eDP-1", "HDMI-A-1", 0);
    MissesPart("eDP-1", "HDMI-A-2", 0);
    MissesPart("DP-2", "HDMI-A-1", 0);
    MissesPart("DP-2", "HDMI-A-2", 0);
    MissesPart("DP-2", "DP-1", 3);
    MissesPart("DSI-1", "HDMI", 0);
    MissesPart("DSI-1", "DP", 1);
    MissesPart("LVDS-1", "HDMI", 0);
    MissesPart("LVDS-1", "DP", 1);
  }

  // No channel is skipped: below the channel of an unknown connector every number from one on is
  // another connector's, a known one's or an earlier one's.
  lemma NoChannelIsSkipped(names: set<Name>, channels: map<Name, nat>, n: Name, c: nat)
    requires Assigned(names, channels) && n in channels && Fixed(n) == 0
    ensures 1 <= channels[n]
    ensures 1 <= c < channels[n] ==>
              exists m :: m in channels && m != n && channels[m] == c && (0 < Fixed(m) || Before(m, n))
  {
    hide Contains, Fixed, IsOutput, Before;
    assert n in Unknowns(names);
    if 1 <= c < channels[n] {
      assert c in TakenBefore(names, channels, n);
      if c in FixedChannels(names) {
        var m :| m in Knowns(names) && Fixed(m) == c;
        assert m in channels && channels[m] == c;
      } else {
        var m :| m in channels && m in Unknowns(names) && Before(m, n) && m != n && channels[m] == c;
      }
    }
  }

  lemma OneKnownTwoOthers(names: set<Name>, channels: map<Name, nat>, one: Name, m: Name, n: Name)
    requires Assigned(names, channels) && Knowns(names) == {one} && Fixed(one) == 1
    requires Unknowns(names) == {m, n} && Before(m, n) && !Before(n, m)
    ensures channels == map[one := 1, m := 2, n := 3]
  {
    hide Contains, Fixed, IsOutput, Before, Knowns, Unknowns;
    assert FixedChannels(names) == {1};
    assert TakenBefore(names, channels, m) == {1};
    assert LowestFree(2, {1}) && LowestFree(3, {1, 2});
    OneLowestFree(channels[m], 2, {1});
    assert TakenBefore(names, channels, n) == {1, 2};
    OneLowestFree(channels[n], 3, {1, 2});
  }

  // One device: the known connector keeps its number, the others follow it by name, and what is no
  // output has none.
  lemma ThreeOutputs(channels: map<Name, nat>)
    requires Assigned({"eDP-1", "DSI-1", "HDMI-A-1", "DP-2"}, channels)
    ensures channels == map["HDMI-A-1" := 1, "DP-2" := 2, "eDP-1" := 3]
  {
    hide Contains, Fixed, IsOutput, Assigned;
    KnownConnectors();
    UnknownConnectors();
    var names := {"eDP-1", "DSI-1", "HDMI-A-1", "DP-2"};
    assert Knowns(names) == {"HDMI-A-1"} && Unknowns(names) == {"DP-2", "eDP-1"};
    assert "DP-2"[0] < "eDP-1"[0];
    OneKnownTwoOthers(names, channels, "HDMI-A-1", "DP-2", "eDP-1");
  }

  // ---------- the algorithm ----------

  // std::sort on names.
  function Inserted(n: Name, names: seq<Name>): (r: seq<Name>) {
    if names == [] || Before(n, names[0]) then [n] + names else [names[0]] + Inserted(n, names[1..])
  }

  function SortedNames(names: seq<Name>): seq<Name> {
    if names == [] then [] else Inserted(names[0], SortedNames(names[1..]))
  }

  lemma {:induction false} InsertedKeeps(n: Name, names: seq<Name>)
    requires Sorted(names)
    ensures Sorted(Inserted(n, names)) && multiset(Inserted(n, names)) == multiset(names) + multiset{n}
  {
    if names == [] {
    } else if Before(n, names[0]) {
      forall j | 0 <= j < |names|
        ensures Before(n, names[j])
      {
        if j > 0 { BeforeIsTransitive(n, names[0], names[j]); }
      }
    } else {
      BeforeIsTotal(n, names[0]);
      InsertedKeeps(n, names[1..]);
      var rest := Inserted(n, names[1..]);
      assert names == [names[0]] + names[1..];
      forall j | 0 <= j < |rest|
        ensures Before(names[0], rest[j])
      {
        assert rest[j] in multiset(rest);
        assert rest[j] == n || rest[j] in names[1..];
      }
    }
  }

  lemma {:induction false} SortedNamesSort(names: seq<Name>)
    ensures Sorted(SortedNames(names)) && multiset(SortedNames(names)) == multiset(names)
  {
    if names != [] {
      SortedNamesSort(names[1..]);
      InsertedKeeps(names[0], SortedNames(names[1..]));
      assert names == [names[0]] + names[1..];
    }
  }

  function SetOf(names: seq<Name>): set<Name> {
    set n | n in names
  }

  lemma SortedStaysDistinct(names: seq<Name>)
    requires Distinct(names)
    ensures Distinct(SortedNames(names)) && SetOf(SortedNames(names)) == SetOf(names)
  {
    var sorted := SortedNames(names);
    SortedNamesSort(names);
    forall n
      ensures n in sorted <==> n in names
    {
      assert n in sorted <==> n in multiset(sorted);
      assert n in names <==> n in multiset(names);
    }
    MultisetOfDistinct(names);
    DistinctFromMultiset(sorted);
  }

  lemma {:induction false} MultisetOfDistinct(names: seq<Name>)
    requires Distinct(names)
    ensures forall n :: multiset(names)[n] <= 1
  {
    if names != [] {
      MultisetOfDistinct(names[1..]);
      assert names == [names[0]] + names[1..];
      assert names[0] !in names[1..];
    }
  }

  lemma {:induction false} DistinctFromMultiset(names: seq<Name>)
    requires forall n :: multiset(names)[n] <= 1
    ensures Distinct(names)
  {
    if names != [] {
      assert names == [names[0]] + names[1..];
      assert multiset(names) == multiset{names[0]} + multiset(names[1..]);
      assert multiset(names)[names[0]] == 1 + multiset(names[1..])[names[0]];
      assert names[0] !in names[1..];
      forall n
        ensures multiset(names[1..])[n] <= 1
      {
        assert multiset(names[1..])[n] <= multiset(names)[n];
      }
      DistinctFromMultiset(names[1..]);
    }
  }

  // Channels one to n - 1 in use leave fewer channels than that unused.
  lemma SomeIsFree(used: set<nat>, ch: nat)
    requires 0 < ch && forall c :: 0 < c < ch ==> c in used
    ensures ch - 1 <= |used|
    decreases ch
  {
    if ch > 1 { SomeIsFree(used - {ch - 1}, ch - 1); }
  }

  method LowestFreeChannel(used: set<nat>) returns (ch: nat)
    ensures LowestFree(ch, used)
  {
    ch := 1;
    while ch in used
      invariant 0 < ch && forall c :: 0 < c < ch ==> c in used
      decreases |used| - ch + 1
    {
      SomeIsFree(used, ch + 1);
      ch := ch + 1;
    }
  }

  // The channels taken once the fixed ones and the first k unknown ones are.
  ghost function UsedAfter(names: set<Name>, unknown: seq<Name>, channels: map<Name, nat>, k: nat): set<nat>
    requires k <= |unknown| && forall i :: 0 <= i < k ==> unknown[i] in channels
  {
    FixedChannels(names) + set i | 0 <= i < k :: channels[unknown[i]]
  }

  // The map built from the connectors in the order they were enumerated.
  method AssignChannels(connectors: seq<Name>) returns (channels: map<Name, nat>)
    requires Distinct(connectors)
    ensures Assigned(SetOf(connectors), channels)
  {
    var used: set<nat>;
    channels, used := KnownPass(connectors);
    var unknown := UnknownPass(connectors, channels);
    SortedNamesSort(unknown);
    SortedStaysDistinct(unknown);
    unknown := SortedNames(unknown);
    channels := UnknownChannels(SetOf(connectors), unknown, channels, used);
    AssignedInOrder(SetOf(connectors), unknown, channels);
  }

  // Pass 1: the fixed channels of known connectors.
  method KnownPass(connectors: seq<Name>) returns (channels: map<Name, nat>, used: set<nat>)
    ensures channels.Keys == Knowns(SetOf(connectors)) && used == FixedChannels(SetOf(connectors))
    ensures forall n :: n in channels ==> channels[n] == Fixed(n)
  {
    channels, used := map[], {};
    for i := 0 to |connectors|
      invariant channels.Keys == Knowns(SetOf(connectors[..i])) && used == FixedChannels(SetOf(connectors[..i]))
      invariant forall n :: n in channels ==> channels[n] == Fixed(n)
    {
      OneMoreConnector(connectors, i);
      var n := connectors[i];
      if IsOutput(n) {
        var ch := Fixed(n);
        if ch > 0 {
          channels := channels[n := ch];
          used := used + {ch};
        }
      }
    }
    assert connectors[..|connectors|] == connectors;
  }

  lemma OneMoreConnector(connectors: seq<Name>, i: nat)
    requires i < |connectors|
    ensures var n, before, after := connectors[i], SetOf(connectors[..i]), SetOf(connectors[..i + 1]);
            && Knowns(after) == Knowns(before) + (if IsOutput(n) && Fixed(n) > 0 then {n} else {})
            && Unknowns(after) == Unknowns(before) + (if IsOutput(n) && Fixed(n) == 0 then {n} else {})
            && FixedChannels(after) == FixedChannels(before) + (if IsOutput(n) && Fixed(n) > 0 then {Fixed(n)} else {})
  {
    hide Contains, Fixed, IsOutput;
    var n, before, after := connectors[i], SetOf(connectors[..i]), SetOf(connectors[..i + 1]);
    assert connectors[..i + 1] == connectors[..i] + [n];
    assert after == before + {n};
    assert Knowns(after) == Knowns(before) + (if IsOutput(n) && Fixed(n) > 0 then {n} else {});
  }

  // Pass 2: the other outputs, as they come.
  method UnknownPass(connectors: seq<Name>, known: map<Name, nat>) returns (unknown: seq<Name>)
    requires Distinct(connectors) && known.Keys == Knowns(SetOf(connectors))
    ensures Distinct(unknown) && SetOf(unknown) == Unknowns(SetOf(connectors))
  {
    unknown := [];
    for i := 0 to |connectors|
      invariant Distinct(unknown) && SetOf(unknown) == Unknowns(SetOf(connectors[..i]))
    {
      OneMoreConnector(connectors, i);
      var n := connectors[i];
      if IsOutput(n) && n !in known {
        assert n !in connectors[..i];
        unknown := unknown + [n];
      }
    }
    assert connectors[..|connectors|] == connectors;
  }

  // The known ones and the first i unknown ones have their channels, each the lowest left then.
  ghost predicate TakenUpTo(names: set<Name>, unknown: seq<Name>, channels: map<Name, nat>, i: nat) {
    && i <= |unknown| && channels.Keys == Knowns(names) + SetOf(unknown[..i])
    && (forall n :: n in Knowns(names) ==> channels[n] == Fixed(n))
    && forall k :: 0 <= k < i ==> LowestFree(channels[unknown[k]], UsedAfter(names, unknown, channels, k))
  }

  lemma SameUsed(names: set<Name>, unknown: seq<Name>, a: map<Name, nat>, b: map<Name, nat>, k: nat)
    requires k <= |unknown| && forall j :: 0 <= j < k ==> unknown[j] in a && unknown[j] in b && a[unknown[j]] == b[unknown[j]]
    ensures UsedAfter(names, unknown, a, k) == UsedAfter(names, unknown, b, k)
  {}

  lemma OneMoreUsed(names: set<Name>, unknown: seq<Name>, channels: map<Name, nat>, i: nat)
    requires i < |unknown| && forall j :: 0 <= j <= i ==> unknown[j] in channels
    ensures UsedAfter(names, unknown, channels, i + 1) == UsedAfter(names, unknown, channels, i) + {channels[unknown[i]]}
  {}

  // An unknown connector met for the first time.
  lemma NotYetTaken(names: set<Name>, unknown: seq<Name>, channels: map<Name, nat>, i: nat)
    requires Distinct(unknown) && SetOf(unknown) == Unknowns(names) && i < |unknown| && TakenUpTo(names, unknown, channels, i)
    ensures unknown[i] !in channels && SetOf(unknown[..i + 1]) == SetOf(unknown[..i]) + {unknown[i]}
    ensures forall j :: 0 <= j < i ==> unknown[j] in channels
  {
    hide Contains, Fixed, IsOutput, FixedChannels, LowestFree, UsedAfter;
    assert unknown[i] in SetOf(unknown);
    assert unknown[..i + 1] == unknown[..i] + [unknown[i]];
    assert forall j :: 0 <= j < i ==> unknown[j] in unknown[..i];
  }

  lemma OneMoreTaken(names: set<Name>, unknown: seq<Name>, before: map<Name, nat>, i: nat, ch: nat)
    requires Distinct(unknown) && SetOf(unknown) == Unknowns(names) && i < |unknown| && TakenUpTo(names, unknown, before, i)
    requires LowestFree(ch, UsedAfter(names, unknown, before, i))
    ensures var after := before[unknown[i] := ch];
            && TakenUpTo(names, unknown, after, i + 1)
            && UsedAfter(names, unknown, after, i + 1) == UsedAfter(names, unknown, before, i) + {ch}
  {
    hide Knowns, Unknowns, Fixed, LowestFree, UsedAfter, SetOf;
    var after := before[unknown[i] := ch];
    NotYetTaken(names, unknown, before, i);
    OneMoreUsed(names, unknown, after, i);
    forall k | 0 <= k <= i
      ensures UsedAfter(names, unknown, after, k) == UsedAfter(names, unknown, before, k)
    {
      SameUsed(names, unknown, after, before, k);
    }
  }

  // In the order of their names, each takes the lowest channel left.
  method UnknownChannels(ghost names: set<Name>, unknown: seq<Name>, known: map<Name, nat>, fixed: set<nat>)
    returns (channels: map<Name, nat>)
    requires Distinct(unknown) && SetOf(unknown) == Unknowns(names)
    requires known.Keys == Knowns(names) && fixed == FixedChannels(names)
    requires forall n :: n in known ==> known[n] == Fixed(n)
    ensures TakenUpTo(names, unknown, channels, |unknown|)
  {
    channels := known;
    var used := fixed;
    for i := 0 to |unknown|
      invariant TakenUpTo(names, unknown, channels, i) && used == UsedAfter(names, unknown, channels, i)
    {
      hide TakenUpTo, UsedAfter;
      var ch := LowestFreeChannel(used);
      OneMoreTaken(names, unknown, channels, i, ch);
      channels := channels[unknown[i] := ch];
      used := used + {ch};
    }
  }

  // Taken in the order of their names means taken after exactly the earlier ones.
  lemma AssignedInOrder(names: set<Name>, unknown: seq<Name>, channels: map<Name, nat>)
    requires Sorted(unknown) && Distinct(unknown) && SetOf(unknown) == Unknowns(names)
    requires TakenUpTo(names, unknown, channels, |unknown|)
    ensures Assigned(names, channels)
  {
    hide Contains, Fixed, IsOutput, FixedChannels, LowestFree;
    assert unknown[..|unknown|] == unknown;
    forall n | n in Unknowns(names)
      ensures LowestFree(channels[n], TakenBefore(names, channels, n))
    {
      var k :| 0 <= k < |unknown| && unknown[k] == n;
      EarlierAreBefore(names, unknown, channels, k);
    }
  }

  lemma EarlierAreBefore(names: set<Name>, unknown: seq<Name>, channels: map<Name, nat>, k: nat)
    requires Sorted(unknown) && Distinct(unknown) && SetOf(unknown) == Unknowns(names) && k < |unknown|
    requires channels.Keys == Knowns(names) + Unknowns(names)
    ensures UsedAfter(names, unknown, channels, k) == TakenBefore(names, channels, unknown[k])
  {
    hide Contains, Fixed, IsOutput, FixedChannels, Before;
    var n := unknown[k];
    forall i | 0 <= i < k
      ensures channels[unknown[i]] in TakenBefore(names, channels, n)
    {
      assert unknown[i] in SetOf(unknown);
    }
    forall m | m in Unknowns(names) && Before(m, n) && m != n
      ensures channels[m] in UsedAfter(names, unknown, channels, k)
    {
      var i :| 0 <= i < |unknown| && unknown[i] == m;
      if k < i { BeforeIsTotal(m, n); }
    }
  }

  // Every permutation of the connectors gets the same map.
  lemma OrderDoesNotMatter(a: seq<Name>, b: seq<Name>, fromA: map<Name, nat>, fromB: map<Name, nat>)
    requires multiset(a) == multiset(b) && Assigned(SetOf(a), fromA) && Assigned(SetOf(b), fromB)
    ensures fromA == fromB
  {
    hide Assigned;
    forall n
      ensures n in a <==> n in b
    {
      assert n in a <==> n in multiset(a);
      assert n in b <==> n in multiset(b);
    }
    assert SetOf(a) == SetOf(b);
    AssignmentIsUnique(SetOf(a), fromA, fromB);
  }
}
