/** The interactive's configuration (src/scripts/interactive.js, constructor):
    a fixed table of defaults that the caller's options are merged over with
    mergeObj. Values are the numbers and booleans the table holds. */
module Config {
  import opened Wrappers
  import Utils

  datatype Value = Num(n: real) | Flag(b: bool)

  type Settings = map<string, Value>

  /** JavaScript truthiness of a property read: absent keys, 0 and false are
      falsy. */
  predicate Truthy(v: Option<Value>) {
    match v
    case None => false
    case Some(Num(n)) => n != 0.0
    case Some(Flag(b)) => b
  }

  /** The default configuration table. */
  function Defaults(): Settings
  {
    map[
      "scrollLength" := Num(9.0),
      "scrubFactor" := Flag(true),
      "snapScroll" := Flag(false),
      "snapDelay" := Num(0.2),
      "snapDurationMin" := Num(0.05),
      "snapDurationMax" := Num(1.25),
      "imageScaleFrom" := Num(1.075),
      "imageScaleMax" := Num(1.035),
      "imageScaleTo" := Num(1.035),
      "rainbowImageOpacityMin" := Num(0.35),
      "rainbowImageOpacityMax" := Num(0.4),
      "rainbowImageOpacityTo" := Num(1.0),
      "shapeStrokeWidth" := Num(2.0),
      "shapeToCount" := Num(0.5),
      "shapeToXMin" := Num(0.05),
      "shapeToXMax" := Num(0.75),
      "shapeToYMin" := Num(0.05),
      "shapeToYMax" := Num(0.666),
      "shapeScaleToMin" := Num(0.75),
      "shapeScaleToMax" := Num(0.833),
      "focalPointScaleToMax" := Num(1.5),
      "shapeRotateFromMin" := Num(0.0),
      "shapeRotateFromMax" := Num(30.0),
      "shapeRotateToMin" := Num(5.0),
      "shapeRotateToMax" := Num(70.0),
      "shapeExpandStagger" := Num(0.125),
      "shapeSnapStagger" := Num(0.05),
      "stageInDuration" := Num(0.25),
      "stageOutDelay" := Num(3.0),
      "stageOutDuration" := Num(0.25),
      "textComponentStagger" := Num(0.25),
      "textComponentChildStagger" := Num(0.15),
      "lettersDuration" := Num(0.5),
      "lettersStagger" := Num(0.06),
      "headingLettersStagger" := Num(0.06),
      "bodyLettersStagger" := Num(0.0055),
      "scrollPromptLettersStagger" := Num(0.0055)
    ]
  }

  /** The letters-stagger entries of the defaults: a general 0.06, the same
      for headings, 0.0055 for body and scroll prompt, and no entry for the
      header or progress names. */
  lemma StaggerDefaults()
    ensures Defaults()["lettersStagger"] == Num(0.06)
    ensures Defaults()["headingLettersStagger"] == Num(0.06)
    ensures Defaults()["bodyLettersStagger"] == Num(0.0055)
    ensures Defaults()["scrollPromptLettersStagger"] == Num(0.0055)
    ensures "headerLettersStagger" !in Defaults() && "progressLettersStagger" !in Defaults()
  {
  }

  /** The effective configuration: the caller's options merged over the
      defaults. */
  function Resolve(user: Settings): (c: Settings)
    ensures c.Keys == Defaults().Keys + user.Keys
    ensures forall k :: k in user ==> c[k] == user[k]
    ensures forall k :: k in Defaults() && k !in user ==> c[k] == Defaults()[k]
  {
    Utils.MergeOverDefaults(Defaults(), user);
    Utils.MergeObj([Defaults(), user])
  }

  /** With no options the configuration is exactly the defaults, and every
      default key is readable whatever the caller passes. */
  lemma ResolveDefaults(user: Settings)
    ensures Resolve(map[]) == Defaults()
    ensures forall k :: k in Defaults() ==> Get(Resolve(user), k).Some?
  {
    assert Resolve(map[]).Keys == Defaults().Keys;
  }

  /** Options the caller leaves out cannot remove a default: the resolved
      value of a default key is the caller's when given, else the default. */
  lemma ResolveLookup(user: Settings, k: string)
    requires k in Defaults()
    ensures Get(Resolve(user), k) == Some(Get(user, k).GetOr(Defaults()[k]))
  {
  }

  /** Dropping one option changes the resolved configuration at that key
      only. */
  lemma ResolveWithout(user: Settings, dropped: string, k: string)
    requires k != dropped
    ensures Get(Resolve(user), k) == Get(Resolve(user - {dropped}), k)
  {
    var other := user - {dropped};
    assert k in other <==> k in user;
    if k in user {
      assert other[k] == user[k];
    }
  }
}
