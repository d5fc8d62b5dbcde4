/** Colour per missile type and the launch-platform icon classifier
    (India/project/src/utils/missileUtils.ts). */
module MissileUtils {
  import opened Types

  // ---------------------------------------------------------------------------
  // Type colours
  // ---------------------------------------------------------------------------

  /** Colour used for every type that is not in the table. */
  const DefaultColor: string := "#cccccc"

  /** The fixed ten-entry table from type name to circle colour. */
  const MissileTypeColors: map<string, string> := map[
    "Surface-to-Air" := "#ff0000",
    "Ballistic Missile Defence" := "#ff4500",
    "Air-to-Air" := "#0000ff",
    "Air-to-Surface" := "#008000",
    "Anti-Radiation" := "#ffa500",
    "Surface-to-Surface" := "#800080",
    "Anti-Ship" := "#00ced1",
    "Torpedo" := "#ffc0cb",
    "Anti-Submarine System" := "#FFD700",
    "SLBM" := "#4b0082"
  ]

  /** Table lookup with the default for unknown types. Every table colour is a non-empty
      string, so the `||` fallback of the source fires exactly on a missing key. Every
      colour it gives is a CSS hex colour `#rrggbb`. */
  function MissileTypeColor(missileType: string): (color: string)
    ensures |color| == 7 && color[0] == '#'
    ensures forall i :: 1 <= i < 7 ==> color[i] in "0123456789abcdefABCDEF"
  {
    if missileType in MissileTypeColors then MissileTypeColors[missileType] else DefaultColor
  }

  /** Each of the ten known types gets its own fixed colour. */
  lemma KnownTypeColors()
    ensures MissileTypeColor("Surface-to-Air") == "#ff0000"
    ensures MissileTypeColor("Ballistic Missile Defence") == "#ff4500"
    ensures MissileTypeColor("Air-to-Air") == "#0000ff"
    ensures MissileTypeColor("Air-to-Surface") == "#008000"
    ensures MissileTypeColor("Anti-Radiation") == "#ffa500"
    ensures MissileTypeColor("Surface-to-Surface") == "#800080"
    ensures MissileTypeColor("Anti-Ship") == "#00ced1"
    ensures MissileTypeColor("Torpedo") == "#ffc0cb"
    ensures MissileTypeColor("Anti-Submarine System") == "#FFD700"
    ensures MissileTypeColor("SLBM") == "#4b0082"
  {
  }

  /** The default colour comes out exactly for the types outside the table: no table
      entry uses it, so a circle drawn in grey means "unknown type" and nothing else. */
  lemma DefaultColorIffUnknownType(missileType: string)
    ensures MissileTypeColor(missileType) == DefaultColor <==> missileType !in MissileTypeColors
  {
  }

  /** Two different known types never share a colour. */
  lemma KnownColorsDistinct(t1: string, t2: string)
    requires t1 in MissileTypeColors && t2 in MissileTypeColors && t1 != t2
    ensures MissileTypeColor(t1) != MissileTypeColor(t2)
  {
  }

  // ---------------------------------------------------------------------------
  // Launch-platform icons
  // ---------------------------------------------------------------------------

  /** The marker icons. `Vls` is defined by the source but no branch returns it. */
  datatype LaunchIcon = Default | Aircraft | Submarine | Ship | MobileLauncher | Shoulder | Ground | Vls

  /** ASCII lower-casing of one character. */
  function LowerChar(c: char): (r: char)
    ensures 'A' <= c <= 'Z' ==> 'a' <= r <= 'z'
    ensures !('A' <= c <= 'Z') ==> r == c
  {
    if 'A' <= c <= 'Z' then (c as int + 32) as char else c
  }

  /** Lower-casing of a string, character by character. */
  function ToLower(s: string): (r: string)
    ensures |r| == |s|
    ensures forall i :: 0 <= i < |s| ==> r[i] == LowerChar(s[i])
  {
    if s == [] then [] else [LowerChar(s[0])] + ToLower(s[1..])
  }

  /** Lower-casing twice is lower-casing once. */
  lemma ToLowerIdempotent(s: string)
    ensures ToLower(ToLower(s)) == ToLower(s)
  {
  }

  /** Lower-casing a concatenation lower-cases each part. */
  lemma ToLowerConcat(a: string, b: string)
    ensures ToLower(a + b) == ToLower(a) + ToLower(b)
  {
  }

  /** `s.includes(sub)`: `sub` occurs in `s` at some offset. A text contains only
      keywords no longer than itself. */
  predicate Contains(s: string, sub: string)
    ensures Contains(s, sub) ==> |sub| <= |s|
    decreases |s|
  {
    sub <= s || (|s| > 0 && Contains(s[1..], sub))
  }

  /** `sub` sits in `s` starting at offset `i`. */
  predicate OccursAt(s: string, sub: string, i: nat) {
    i + |sub| <= |s| && s[i..i + |sub|] == sub
  }

  /** `Contains` is exactly "occurs at some offset", the meaning of `includes`. */
  lemma ContainsIffOccurs(s: string, sub: string)
    ensures Contains(s, sub) <==> exists i: nat :: OccursAt(s, sub, i)
  {
    if Contains(s, sub) {
      var i := ContainsOffset(s, sub);
      assert OccursAt(s, sub, i);
    }
    forall i: nat | OccursAt(s, sub, i) ensures Contains(s, sub) {
      OccursContains(s, sub, i);
    }
  }

  /** An occurrence found by `Contains` has an offset. */
  lemma {:induction false} ContainsOffset(s: string, sub: string) returns (i: nat)
    requires Contains(s, sub)
    ensures OccursAt(s, sub, i)
    decreases |s|
  {
    if sub <= s {
      i := 0;
    } else {
      var k := ContainsOffset(s[1..], sub);
      assert s[1..][k..k + |sub|] == s[k + 1..k + 1 + |sub|];
      i := k + 1;
    }
  }

  /** An occurrence at offset `i` is found by `Contains`. */
  lemma {:induction false} OccursContains(s: string, sub: string, i: nat)
    requires OccursAt(s, sub, i)
    ensures Contains(s, sub)
    decreases i
  {
    if i > 0 {
      assert s[1..][i - 1..i - 1 + |sub|] == s[i..i + |sub|];
      OccursContains(s[1..], sub, i - 1);
    }
  }

  /** An occurrence stays an occurrence when text is added on either side. */
  lemma {:induction false} ContainsInContext(s: string, sub: string, before: string, after: string)
    requires Contains(s, sub)
    ensures Contains(before + s + after, sub)
  {
    if before == [] {
      ContainsExtendRight(s, sub, after);
      assert before + s + after == s + after;
    } else {
      ContainsInContext(s, sub, before[1..], after);
      assert (before + s + after)[1..] == before[1..] + s + after;
    }
  }

  lemma {:induction false} ContainsExtendRight(s: string, sub: string, after: string)
    requires Contains(s, sub)
    ensures Contains(s + after, sub)
  {
    if sub <= s {
      assert (s + after)[..|sub|] == s[..|sub|];
    } else {
      ContainsExtendRight(s[1..], sub, after);
      assert (s + after)[1..] == s[1..] + after;
    }
  }

  /** Some keyword of the list occurs in `s`. */
  predicate ContainsAny(s: string, keywords: seq<string>) {
    exists k :: k in keywords && Contains(s, k)
  }

  const AircraftKeywords: seq<string> :=
    ["aircraft", "su-30mki", "tejas", "rafale", "mirage", "apache", "p-8i", "helicopter", "mig-29", "jaguar"]
  const SubmarineKeywords: seq<string> := ["submarine", "arihant"]
  const ShipKeywords: seq<string> := ["ship", "warship", "naval", "vls"]
  const MobileLauncherKeywords: seq<string> := ["mobile", "vehicle", "road", "tracked", "launcher"]
  const ShoulderKeywords: seq<string> := ["shoulder", "manpad"]
  const GroundKeywords: seq<string> := ["ground-based", "fixed"]

  /** The keyword chain on an already lower-cased platform text, checked in the source's
      order (each group is one `includes(...) || ...` condition); the first group with a
      hit decides the icon; no group leads to the VLS icon. */
  function ClassifyLowered(p: string): (icon: LaunchIcon)
    ensures icon != Vls
  {
    if ContainsAny(p, AircraftKeywords) then Aircraft
    else if ContainsAny(p, SubmarineKeywords) then Submarine
    else if ContainsAny(p, ShipKeywords) then Ship
    else if ContainsAny(p, MobileLauncherKeywords) then MobileLauncher
    else if ContainsAny(p, ShoulderKeywords) then Shoulder
    else if ContainsAny(p, GroundKeywords) then Ground
    else Default
  }

  /** getIconForLaunchPlatform: an absent or empty description gives the default icon;
      otherwise the lower-cased text goes through the keyword chain. The VLS icon is
      defined but never returned. */
  function IconForLaunchPlatform(platform: Option<string>): (icon: LaunchIcon)
    ensures icon != Vls
  {
    match platform
    case None => Default
    case Some(s) => if s == "" then Default else ClassifyLowered(ToLower(s))
  }

  // ---------------------------------------------------------------------------
  // The classifier as an ordered rule table (reference definition)
  // ---------------------------------------------------------------------------

  /** One priority level: a keyword group and the icon it stands for. */
  datatype Rule = Rule(keywords: seq<string>, icon: LaunchIcon)

  /** The priority list, highest first. */
  const PlatformRules: seq<Rule> := [
    Rule(AircraftKeywords, Aircraft),
    Rule(SubmarineKeywords, Submarine),
    Rule(ShipKeywords, Ship),
    Rule(MobileLauncherKeywords, MobileLauncher),
    Rule(ShoulderKeywords, Shoulder),
    Rule(GroundKeywords, Ground)
  ]

  /** First rule, from position `i` on, whose group has a hit wins; no hit gives the default. */
  function FirstMatchFrom(rules: seq<Rule>, p: string, i: nat): (icon: LaunchIcon)
    decreases |rules| - i
  {
    if i >= |rules| then Default
    else if ContainsAny(p, rules[i].keywords) then rules[i].icon
    else FirstMatchFrom(rules, p, i + 1)
  }

  function FirstMatch(rules: seq<Rule>, p: string): (icon: LaunchIcon) {
    FirstMatchFrom(rules, p, 0)
  }

  /** The rules name pairwise different icons, none of them the default. */
  predicate DistinctIcons(rules: seq<Rule>) {
    (forall a, b :: 0 <= a < b < |rules| ==> rules[a].icon != rules[b].icon) &&
    (forall a :: 0 <= a < |rules| ==> rules[a].icon != Default)
  }

  /** With distinct icons, rule `i` decides exactly when its group has a hit and no
      earlier group from `start` on has one. */
  lemma {:induction false} FirstMatchFromAt(rules: seq<Rule>, p: string, start: nat, i: nat)
    requires DistinctIcons(rules) && start <= i < |rules|
    ensures FirstMatchFrom(rules, p, start) == rules[i].icon <==>
              ContainsAny(p, rules[i].keywords) && forall j :: start <= j < i ==> !ContainsAny(p, rules[j].keywords)
    decreases i - start
  {
    if start < i {
      assert rules[start].icon != rules[i].icon;
      FirstMatchFromAt(rules, p, start + 1, i);
    } else {
      FirstMatchFromRange(rules, p, i + 1);
    }
  }

  /** The table answers the default or the icon of a rule at or after `start`. */
  lemma {:induction false} FirstMatchFromRange(rules: seq<Rule>, p: string, start: nat)
    ensures FirstMatchFrom(rules, p, start) == Default ||
              exists j :: start <= j < |rules| && FirstMatchFrom(rules, p, start) == rules[j].icon
    decreases |rules| - start
  {
    if start < |rules| && !ContainsAny(p, rules[start].keywords) {
      FirstMatchFromRange(rules, p, start + 1);
    }
  }

  /** With no default icon among the rules, the default comes out exactly when no group
      from `start` on has a hit. */
  lemma {:induction false} FirstMatchFromDefault(rules: seq<Rule>, p: string, start: nat)
    requires forall a :: 0 <= a < |rules| ==> rules[a].icon != Default
    ensures FirstMatchFrom(rules, p, start) == Default <==>
              forall j :: start <= j < |rules| ==> !ContainsAny(p, rules[j].keywords)
    decreases |rules| - start
  {
    if start < |rules| {
      FirstMatchFromDefault(rules, p, start + 1);
    }
  }

  /** The source's keyword chain is the rule table evaluated first-match-wins. */
  lemma ChainIsRuleTable(p: string)
    ensures ClassifyLowered(p) == FirstMatch(PlatformRules, p)
  {
    var rules := PlatformRules;
    assert FirstMatchFrom(rules, p, 6) == Default;
    assert FirstMatchFrom(rules, p, 5) == if ContainsAny(p, GroundKeywords) then Ground else Default;
    assert FirstMatchFrom(rules, p, 4) == if ContainsAny(p, ShoulderKeywords) then Shoulder
                                          else FirstMatchFrom(rules, p, 5);
    assert FirstMatchFrom(rules, p, 3) == if ContainsAny(p, MobileLauncherKeywords) then MobileLauncher
                                          else FirstMatchFrom(rules, p, 4);
    assert FirstMatchFrom(rules, p, 2) == if ContainsAny(p, ShipKeywords) then Ship
                                          else FirstMatchFrom(rules, p, 3);
    assert FirstMatchFrom(rules, p, 1) == if ContainsAny(p, SubmarineKeywords) then Submarine
                                          else FirstMatchFrom(rules, p, 2);
    assert FirstMatchFrom(rules, p, 0) == if ContainsAny(p, AircraftKeywords) then Aircraft
                                          else FirstMatchFrom(rules, p, 1);
  }

  lemma PlatformRulesDistinct()
    ensures DistinctIcons(PlatformRules)
  {
  }

  // ---------------------------------------------------------------------------
  // Properties of getIconForLaunchPlatform
  // ---------------------------------------------------------------------------

  /** Absent or empty text gives the default icon. */
  lemma AbsentOrEmptyIsDefault(platform: Option<string>)
    requires platform == None || platform == Some("")
    ensures IconForLaunchPlatform(platform) == Default
  {
  }

  /** Classification ignores letter case. */
  lemma CaseInsensitive(s: string)
    ensures IconForLaunchPlatform(Some(s)) == IconForLaunchPlatform(Some(ToLower(s)))
  {
    ToLowerIdempotent(s);
  }

  /** Rule `i` of the table decides the icon exactly when one of its keywords occurs in the
      lower-cased text and no keyword of a higher-priority rule does. */
  lemma IconIsFirstMatchingRule(s: string, i: nat)
    requires i < |PlatformRules|
    ensures IconForLaunchPlatform(Some(s)) == PlatformRules[i].icon <==>
              ContainsAny(ToLower(s), PlatformRules[i].keywords) &&
              forall j :: 0 <= j < i ==> !ContainsAny(ToLower(s), PlatformRules[j].keywords)
  {
    if s == "" {
      NoRuleHitsEmpty();
    } else {
      ChainIsRuleTable(ToLower(s));
      PlatformRulesDistinct();
      FirstMatchFromAt(PlatformRules, ToLower(s), 0, i);
    }
  }

  /** No keyword of any rule is the empty string, so none occurs in the empty text. */
  lemma NoKeywordInEmpty(keywords: seq<string>)
    requires forall k :: k in keywords ==> k != []
    ensures !ContainsAny([], keywords)
  {
  }

  /** No rule has a hit in the empty text. */
  lemma NoRuleHitsEmpty()
    ensures forall j :: 0 <= j < |PlatformRules| ==> !ContainsAny([], PlatformRules[j].keywords)
  {
    NoKeywordInEmpty(AircraftKeywords);
    NoKeywordInEmpty(SubmarineKeywords);
    NoKeywordInEmpty(ShipKeywords);
    NoKeywordInEmpty(MobileLauncherKeywords);
    NoKeywordInEmpty(ShoulderKeywords);
    NoKeywordInEmpty(GroundKeywords);
  }

  /** The default icon comes out exactly when no keyword of any rule occurs (this covers
      an absent description, an empty one, and text without any keyword). */
  lemma DefaultIffNoKeyword(platform: Option<string>)
    ensures IconForLaunchPlatform(platform) == Default <==>
              platform == None ||
              forall j :: 0 <= j < |PlatformRules| ==> !ContainsAny(ToLower(platform.value), PlatformRules[j].keywords)
  {
    if platform.Some? {
      var s := platform.value;
      ChainIsRuleTable(ToLower(s));
      FirstMatchFromDefault(PlatformRules, ToLower(s), 0);
      if s == "" {
        NoRuleHitsEmpty();
      }
    }
  }

  /** An aircraft keyword anywhere in the text gives the aircraft icon, whatever text
      surrounds it. */
  lemma AircraftWinsInContext(s: string, before: string, after: string)
    requires ContainsAny(ToLower(s), AircraftKeywords)
    ensures IconForLaunchPlatform(Some(before + s + after)) == Aircraft
  {
    var k :| k in AircraftKeywords && Contains(ToLower(s), k);
    ToLowerConcat(before, s);
    ToLowerConcat(before + s, after);
    ContainsInContext(ToLower(s), k, ToLower(before), ToLower(after));
    AircraftKeywordGivesAircraft(before + s + after, k);
  }

  lemma AircraftKeywordGivesAircraft(t: string, k: string)
    requires k in AircraftKeywords && Contains(ToLower(t), k)
    ensures IconForLaunchPlatform(Some(t)) == Aircraft
  {
    IconIsFirstMatchingRule(t, 0);
  }

  /** Without an aircraft keyword, a submarine keyword gives the submarine icon whatever
      ship, launcher or other keywords also occur. */
  lemma SubmarineBeforeLowerRules(s: string)
    requires !ContainsAny(ToLower(s), AircraftKeywords)
    requires ContainsAny(ToLower(s), SubmarineKeywords)
    ensures IconForLaunchPlatform(Some(s)) == Submarine
  {
    IconIsFirstMatchingRule(s, 1);
  }

  /** Ship outranks the mobile-launcher, shoulder and ground groups. */
  lemma ShipBeforeLowerRules(s: string)
    requires !ContainsAny(ToLower(s), AircraftKeywords) && !ContainsAny(ToLower(s), SubmarineKeywords)
    requires ContainsAny(ToLower(s), ShipKeywords)
    ensures IconForLaunchPlatform(Some(s)) == Ship
  {
    IconIsFirstMatchingRule(s, 2);
  }

  /** Mobile launcher outranks the shoulder and ground groups. */
  lemma MobileLauncherBeforeLowerRules(s: string)
    requires !ContainsAny(ToLower(s), AircraftKeywords) && !ContainsAny(ToLower(s), SubmarineKeywords)
    requires !ContainsAny(ToLower(s), ShipKeywords)
    requires ContainsAny(ToLower(s), MobileLauncherKeywords)
    ensures IconForLaunchPlatform(Some(s)) == MobileLauncher
  {
    IconIsFirstMatchingRule(s, 3);
  }

  /** Shoulder-fired outranks the ground group. */
  lemma ShoulderBeforeGround(s: string)
    requires !ContainsAny(ToLower(s), AircraftKeywords) && !ContainsAny(ToLower(s), SubmarineKeywords)
    requires !ContainsAny(ToLower(s), ShipKeywords) && !ContainsAny(ToLower(s), MobileLauncherKeywords)
    requires ContainsAny(ToLower(s), ShoulderKeywords)
    ensures IconForLaunchPlatform(Some(s)) == Shoulder
  {
    IconIsFirstMatchingRule(s, 4);
  }
}
