// The configuration types of logid, and the proof that every variant among them can be
// decoded by first match.
module LogidSchema {
  import opened Options
  import opened Schema
  import Text

  function Opt(name: string, s: Schema): Field {
    Field(name, true, s)
  }

  function Plain(fields: seq<Field>): Schema {
    GroupOf(None, fields)
  }

  function Signed(field: string, text: string, fields: seq<Field>): Schema {
    GroupOf(Some(Signature(field, text)), fields)
  }

  // One type of schema.h each, by its name there.

  function NoAction(): Schema {
    Signed("type", "None", [])
  }

  function KeypressAction(): Schema {
    Signed("type", "Keypress", [Opt("keys", Variant(
      [Prim(PString), Prim(PUInt), ListOf(Variant([Prim(PUInt), Prim(PString)]))]))])
  }

  function ToggleSmartShift(): Schema {
    Signed("type", "ToggleSmartShift", [])
  }

  function ToggleHiresScroll(): Schema {
    Signed("type", "ToggleHiresScroll", [])
  }

  function CycleDpi(): Schema {
    Signed("type", "CycleDPI", [Opt("dpis", ListOf(Prim(PInt))), Opt("sensor", Prim(PInt))])
  }

  function ChangeDpi(): Schema {
    Signed("type", "ChangeDPI", [Opt("inc", Prim(PInt)), Opt("sensor", Prim(PInt))])
  }

  function ChangeHost(): Schema {
    Signed("type", "ChangeHost", [Opt("host", Variant([Prim(PInt), Prim(PString)]))])
  }

  function ChangeProfile(): Schema {
    Signed("type", "ChangeProfile", [Opt("profile", Prim(PString))])
  }

  function BasicAction(): Schema {
    Variant([NoAction(), KeypressAction(), ToggleSmartShift(), ToggleHiresScroll(), CycleDpi(), ChangeDpi(),
      ChangeHost(), ChangeProfile()])
  }

  function AxisGesture(): Schema {
    Signed("mode", "Axis", [Opt("threshold", Prim(PInt)), Opt("axis", Variant([Prim(PString), Prim(PUInt)])),
      Opt("axis_multiplier", Prim(PFloat))])
  }

  function IntervalFields(): seq<Field> {
    [Opt("threshold", Prim(PInt)), Opt("action", BasicAction()), Opt("interval", Prim(PInt))]
  }

  function IntervalGesture(): Schema {
    Signed("mode", "OnInterval", IntervalFields())
  }

  function FewPixelsGesture(): Schema {
    Signed("mode", "OnFewPixels", IntervalFields())
  }

  function ReleaseGesture(): Schema {
    Signed("mode", "OnRelease", [Opt("threshold", Prim(PInt)), Opt("action", BasicAction())])
  }

  function ThresholdGesture(): Schema {
    Signed("mode", "OnThreshold", [Opt("threshold", Prim(PInt)), Opt("action", BasicAction())])
  }

  function NoGesture(): Schema {
    Signed("mode", "NoPress", [Opt("threshold", Prim(PInt))])
  }

  function Gesture(): Schema {
    Variant([NoGesture(), AxisGesture(), IntervalGesture(), FewPixelsGesture(), ReleaseGesture(),
      ThresholdGesture()])
  }

  function GestureAction(): Schema {
    Signed("type", "Gestures", [Opt("gestures", MapOf("direction", PString, Caseless, Gesture()))])
  }

  function Action(): Schema {
    Variant([NoAction(), KeypressAction(), ToggleSmartShift(), ToggleHiresScroll(), CycleDpi(), ChangeDpi(),
      ChangeHost(), ChangeProfile(), GestureAction()])
  }

  function Button(): Schema {
    Plain([Opt("action", Action())])
  }

  function SmartShift(): Schema {
    Plain([Opt("on", Prim(PBool)), Opt("threshold", Prim(PUInt)), Opt("torque", Prim(PUInt))])
  }

  function HiresScroll(): Schema {
    Plain([Opt("hires", Prim(PBool)), Opt("invert", Prim(PBool)), Opt("target", Prim(PBool)), Opt("up", Gesture()),
      Opt("down", Gesture())])
  }

  function Dpi(): Schema {
    Variant([Prim(PInt), ListOf(Prim(PInt))])
  }

  function DpiPreset(): Schema {
    Plain([Field("value", false, Prim(PInt)), Opt("label", Prim(PString))])
  }

  function ThumbWheel(): Schema {
    Plain([Opt("divert", Prim(PBool)), Opt("invert", Prim(PBool)), Opt("left", Gesture()), Opt("right", Gesture()),
      Opt("proxy", BasicAction()), Opt("touch", BasicAction()), Opt("tap", BasicAction())])
  }

  function RemapButton(): Schema {
    MapOf("cid", PUInt16, Numeric, Button())
  }

  function Profile(): Schema {
    Plain([Opt("dpi", Dpi()), Opt("dpi_presets", ListOf(DpiPreset())), Opt("smartshift", SmartShift()),
      Opt("hiresscroll", Variant([Prim(PBool), HiresScroll()])), Opt("buttons", RemapButton()),
      Opt("thumbwheel", ThumbWheel())])
  }

  function Device(): Schema {
    Plain([Field("default_profile", false, Prim(PString)),
      Field("profiles", false, MapOf("name", PString, Lexical, Profile()))])
  }

  function Devices(): Schema {
    MapOf("name", PString, Lexical, Variant([Device(), Profile()]))
  }

  function Config(): Schema {
    Plain([Opt("devices", Devices()), Opt("ignore", SetOf(Prim(PUInt16))), Opt("io_timeout", Prim(PFloat)),
      Opt("workers", Prim(PInt))])
  }

  // Alternatives signed in one field by names that differ beyond their case.
  ghost predicate SignedApart(alts: seq<Schema>, field: string, texts: seq<string>) {
    |texts| == |alts| &&
    (forall i :: 0 <= i < |alts| ==>
      alts[i].GroupOf? && alts[i].sign.Some? && alts[i].sign.value.field == field &&
      Text.Lower(alts[i].sign.value.text) == texts[i]) &&
    forall i, j :: 0 <= i < j < |texts| ==> texts[i] != texts[j]
  }

  lemma SignedVariantSound(alts: seq<Schema>, field: string, texts: seq<string>, extra: set<string>)
    requires |alts| > 0 && SignedApart(alts, field, texts)
    requires forall i :: 0 <= i < |alts| ==> Sound(alts[i], extra)
    ensures Sound(Variant(alts), extra)
  {
    forall i, j | 0 <= i < j < |alts| ensures Rejects(alts[i], alts[j], extra) {
      assert texts[i] != texts[j];
    }
  }

  const ACTION_TEXTS := ["none", "keypress", "togglesmartshift", "togglehiresscroll",
                         "cycledpi", "changedpi", "changehost", "changeprofile", "gestures"]

  lemma ActionTextsDiffer()
    ensures forall i, j :: 0 <= i < j < |ACTION_TEXTS| ==> ACTION_TEXTS[i] != ACTION_TEXTS[j]
  {
    assert "keypress"[0] != "cycledpi"[0] && "keypress"[0] != "gestures"[0] && "cycledpi"[0] != "gestures"[0];
  }

  lemma ToggleTextsLower()
    ensures Text.Lower("ToggleSmartShift") == "togglesmartshift"
    ensures Text.Lower("ToggleHiresScroll") == "togglehiresscroll"
  {
  }

  lemma ChangeTextsLower()
    ensures Text.Lower("CycleDPI") == "cycledpi" && Text.Lower("ChangeDPI") == "changedpi"
    ensures Text.Lower("ChangeHost") == "changehost" && Text.Lower("ChangeProfile") == "changeprofile"
  {
  }

  lemma ActionTextsLower()
    ensures Text.Lower("None") == "none" && Text.Lower("Keypress") == "keypress"
    ensures Text.Lower("ToggleSmartShift") == "togglesmartshift"
    ensures Text.Lower("ToggleHiresScroll") == "togglehiresscroll"
    ensures Text.Lower("CycleDPI") == "cycledpi" && Text.Lower("ChangeDPI") == "changedpi"
    ensures Text.Lower("ChangeHost") == "changehost" && Text.Lower("ChangeProfile") == "changeprofile"
    ensures Text.Lower("Gestures") == "gestures"
  {
    ToggleTextsLower();
    ChangeTextsLower();
  }

  lemma GroupSound(s: Schema, extra: set<string>)
    requires s.GroupOf?
    requires s.sign.Some? ==> s.sign.value.field !in extra
    requires forall i :: 0 <= i < |s.fields| ==>
      s.fields[i].name !in extra && Sound(s.fields[i].schema, {}) &&
      (s.sign.Some? ==> s.fields[i].name != s.sign.value.field)
    requires forall i, j :: 0 <= i < j < |s.fields| ==> s.fields[i].name != s.fields[j].name
    ensures Sound(s, extra)
  {
  }

  // The member names that the maps of the configuration use for their keys.
  const KEY_NAMES := {"name", "cid", "direction"}

  lemma UnitActionsSound()
    ensures Sound(NoAction(), {}) && Sound(ToggleSmartShift(), {}) && Sound(ToggleHiresScroll(), {})
  {
    GroupSound(NoAction(), {});
    GroupSound(ToggleSmartShift(), {});
    GroupSound(ToggleHiresScroll(), {});
  }

  lemma KeysSound()
    ensures Sound(KeypressAction().fields[0].schema, {})
  {
    assert Sound(Variant([Prim(PUInt), Prim(PString)]), {});
  }

  lemma KeypressSound()
    ensures Sound(KeypressAction(), {})
  {
    KeysSound();
    GroupSound(KeypressAction(), {});
  }

  lemma DpiActionsSound()
    ensures Sound(CycleDpi(), {}) && Sound(ChangeDpi(), {})
  {
    GroupSound(CycleDpi(), {});
    GroupSound(ChangeDpi(), {});
  }

  lemma ChangeActionsSound()
    ensures Sound(ChangeHost(), {}) && Sound(ChangeProfile(), {})
  {
    GroupSound(ChangeHost(), {});
    GroupSound(ChangeProfile(), {});
  }

  lemma BasicActionsApart()
    ensures |BasicAction().alts| == 8 && SignedApart(BasicAction().alts, "type", ACTION_TEXTS[..8])
  {
    ActionTextsDiffer();
    ActionTextsLower();
  }

  lemma BasicActionSound()
    ensures Sound(BasicAction(), {})
  {
    UnitActionsSound();
    KeypressSound();
    DpiActionsSound();
    ChangeActionsSound();
    BasicActionsApart();
    hide SignedApart, NoAction, KeypressAction, ToggleSmartShift, ToggleHiresScroll, CycleDpi, ChangeDpi, ChangeHost,
      ChangeProfile;
    SignedVariantSound(BasicAction().alts, "type", ACTION_TEXTS[..8], {});
  }

  const GESTURE_TEXTS := ["nopress", "axis", "oninterval", "onfewpixels", "onrelease", "onthreshold"]

  lemma GestureTextsLower()
    ensures Text.Lower("NoPress") == "nopress" && Text.Lower("Axis") == "axis"
    ensures Text.Lower("OnInterval") == "oninterval" && Text.Lower("OnFewPixels") == "onfewpixels"
    ensures Text.Lower("OnRelease") == "onrelease" && Text.Lower("OnThreshold") == "onthreshold"
    ensures forall i, j :: 0 <= i < j < |GESTURE_TEXTS| ==> GESTURE_TEXTS[i] != GESTURE_TEXTS[j]
  {
    assert "onfewpixels"[2] != "onthreshold"[2];
  }

  lemma AxisGestureSound(extra: set<string>)
    requires extra <= KEY_NAMES
    ensures Sound(AxisGesture(), extra)
  {
    assert "mode" !in KEY_NAMES && "threshold" !in KEY_NAMES && "axis" !in KEY_NAMES && "axis_multiplier" !in KEY_NAMES;
    GroupSound(AxisGesture(), extra);
  }

  lemma ActionGesturesSound(extra: set<string>)
    requires extra <= KEY_NAMES
    ensures Sound(IntervalGesture(), extra) && Sound(FewPixelsGesture(), extra)
    ensures Sound(ReleaseGesture(), extra) && Sound(ThresholdGesture(), extra) && Sound(NoGesture(), extra)
  {
    BasicActionSound();
    NotKeyNames();
    hide BasicAction, KEY_NAMES;
    GroupSound(IntervalGesture(), extra);
    GroupSound(FewPixelsGesture(), extra);
    GroupSound(ReleaseGesture(), extra);
    GroupSound(ThresholdGesture(), extra);
    GroupSound(NoGesture(), extra);
  }

  lemma NotKeyNames()
    ensures "mode" !in KEY_NAMES && "threshold" !in KEY_NAMES && "action" !in KEY_NAMES && "interval" !in KEY_NAMES
  {
  }

  lemma GesturesApart()
    ensures |Gesture().alts| == 6 && SignedApart(Gesture().alts, "mode", GESTURE_TEXTS)
  {
    GestureTextsLower();
  }

  lemma GestureSound(extra: set<string>)
    requires extra <= KEY_NAMES
    ensures Sound(Gesture(), extra)
  {
    hide SignedApart, NoGesture, AxisGesture, IntervalGesture, FewPixelsGesture, ReleaseGesture, ThresholdGesture;
    AxisGestureSound(extra);
    ActionGesturesSound(extra);
    GesturesApart();
    SignedVariantSound(Gesture().alts, "mode", GESTURE_TEXTS, extra);
  }

  lemma GestureActionSound()
    ensures Sound(GestureAction(), {})
  {
    GestureSound({"direction"});
    GroupSound(GestureAction(), {});
  }

  lemma ActionsApart()
    ensures |Action().alts| == 9 && SignedApart(Action().alts, "type", ACTION_TEXTS)
  {
    ActionTextsDiffer();
    ActionTextsLower();
  }

  lemma ActionSound()
    ensures Sound(Action(), {})
  {
    hide SignedApart, NoAction, KeypressAction, ToggleSmartShift, ToggleHiresScroll, CycleDpi, ChangeDpi, ChangeHost,
      ChangeProfile, GestureAction;
    BasicActionSound();
    GestureActionSound();
    ActionsApart();
    forall i | 0 <= i < |Action().alts| ensures Sound(Action().alts[i], {}) {
      if i < 8 { assert Action().alts[i] == BasicAction().alts[i]; }
    }
    SignedVariantSound(Action().alts, "type", ACTION_TEXTS, {});
  }

  lemma ScrollSound()
    ensures Sound(Variant([Prim(PBool), HiresScroll()]), {})
  {
    GestureSound({});
    GroupSound(HiresScroll(), {});
  }

  lemma ThumbWheelSound()
    ensures Sound(ThumbWheel(), {})
  {
    GestureSound({});
    BasicActionSound();
    GroupSound(ThumbWheel(), {});
  }

  lemma ButtonsSound()
    ensures Sound(RemapButton(), {})
  {
    ActionSound();
    GroupSound(Button(), {"cid"});
  }

  lemma SensorSound()
    ensures Sound(Dpi(), {}) && Sound(ListOf(DpiPreset()), {}) && Sound(SmartShift(), {})
  {
    GroupSound(DpiPreset(), {});
    GroupSound(SmartShift(), {});
  }

  lemma ProfileNamesDiffer()
    ensures forall i, j :: 0 <= i < j < |Profile().fields| ==> Profile().fields[i].name != Profile().fields[j].name
    ensures forall i :: 0 <= i < |Profile().fields| ==> Profile().fields[i].name != "name"
  {
    assert "smartshift"[0] != "thumbwheel"[0] && "dpi_presets"[0] != "hiresscroll"[0];
  }

  lemma ProfileSound()
    ensures Sound(Profile(), {"name"})
  {
    SensorSound();
    ScrollSound();
    ThumbWheelSound();
    ButtonsSound();
    ProfileNamesDiffer();
    hide Dpi, DpiPreset, SmartShift, HiresScroll, RemapButton, ThumbWheel;
    forall i | 0 <= i < |Profile().fields| ensures Sound(Profile().fields[i].schema, {}) {
    }
    GroupSound(Profile(), {"name"});
  }

  lemma DeviceSound()
    ensures Sound(Device(), {"name"}) && Device().GroupOf?
  {
    hide Profile;
    ProfileIsGroup();
    ProfileSound();
    GroupSound(Device(), {"name"});
  }

  lemma ProfileIsGroup()
    ensures Profile().GroupOf? && "default_profile" !in Names(Profile())
  {
  }

  lemma DeviceRejectsProfile()
    ensures Rejects(Device(), Profile(), {"name"})
  {
    hide Profile;
    ProfileIsGroup();
    assert Device().fields[0].name !in Names(Profile()) + {"name"};
  }

  // The devices map, with everything nested in it, decodes unambiguously. A device is told
  // from a bare profile by its mandatory default_profile.
  lemma DevicesSound()
    ensures Sound(Devices(), {})
  {
    hide Profile, Device, Rejects;
    ProfileIsGroup();
    ProfileSound();
    DeviceSound();
    DeviceRejectsProfile();
    TwoAlternativesSound(Device(), Profile(), {"name"});
  }

  lemma TwoAlternativesSound(first: Schema, second: Schema, extra: set<string>)
    requires Sound(first, extra) && !first.Variant? && Sound(second, extra) && !second.Variant?
    requires Rejects(first, second, extra)
    ensures Sound(Variant([first, second]), extra)
  {
    hide Rejects;
  }
}
