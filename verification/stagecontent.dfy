/** The text-content tweens of one stage (addStageContentTween in
    src/scripts/interactive.js): which components animate, in what order,
    towards which values, and at what offset after the stage's label. */
module StageContent {
  import opened Wrappers
  import opened Seqs
  import opened Config

  datatype Component = Header | Body | Progress | ScrollPrompt

  /** The component's name as the source spells it. */
  function Name(c: Component): string {
    match c
    case Header => "header"
    case Body => "body"
    case Progress => "progress"
    case ScrollPrompt => "scrollPrompt"
  }

  /** One animatable child: an element, or an array of them (the characters
      SplitText made of a heading or paragraph, the progress stages, the
      scroll prompt's characters and arrow), which out-tweens play back to
      front, one level deep. */
  datatype Child = Element(id: nat) | Group(items: seq<Child>)

  /** What the stage being built animates. Header and body are the dynamic
      components and hold one child per element of the stage's markup; the
      progress indicator and the scroll prompt are animated whole, as a
      single child. */
  datatype Content = Content(header: seq<Child>, body: seq<Child>, progress: Child, scrollPrompt: Child)

  function ChildrenOf(content: Content, c: Component): (r: seq<Child>)
    ensures c == Progress || c == ScrollPrompt ==> |r| == 1
  {
    match c
    case Header => content.header
    case Body => content.body
    case Progress => [content.progress]
    case ScrollPrompt => [content.scrollPrompt]
  }

  /** The components in animation order: header, body, then the progress
      indicator and the scroll prompt when requested; back to front for an
      out-tween. */
  function ComponentOrder(isOut: bool, includeProgress: bool, includeScrollPrompt: bool): seq<Component>
  {
    var slots := Slots(includeProgress, includeScrollPrompt);
    Present(if isOut then Reverse(slots) else slots)
  }

  function Slots(includeProgress: bool, includeScrollPrompt: bool): seq<Option<Component>>
  {
    [Some(Header), Some(Body),
     if includeProgress then Some(Progress) else None,
     if includeScrollPrompt then Some(ScrollPrompt) else None]
  }

  /** Header and body always animate; the progress indicator and the scroll
      prompt exactly when requested; and nothing animates twice. */
  lemma ComponentOrderMembers(isOut: bool, includeProgress: bool, includeScrollPrompt: bool)
    ensures var order := ComponentOrder(isOut, includeProgress, includeScrollPrompt);
      Header in order && Body in order
      && (Progress in order <==> includeProgress)
      && (ScrollPrompt in order <==> includeScrollPrompt)
      && Distinct(order)
  {
    var inOrder := ComponentOrder(false, includeProgress, includeScrollPrompt);
    InOrder(includeProgress, includeScrollPrompt);
    InOrderMembers(inOrder, includeProgress, includeScrollPrompt);
    if isOut {
      OutOrder(includeProgress, includeScrollPrompt);
      ReverseMembers(inOrder);
    }
  }

  lemma InOrderMembers(order: seq<Component>, includeProgress: bool, includeScrollPrompt: bool)
    requires order == [Header, Body] + (if includeProgress then [Progress] else [])
                      + (if includeScrollPrompt then [ScrollPrompt] else [])
    ensures Header in order && Body in order
    ensures Progress in order <==> includeProgress
    ensures ScrollPrompt in order <==> includeScrollPrompt
    ensures Distinct(order)
  {
    if includeProgress && includeScrollPrompt {
      assert order == [Header, Body, Progress, ScrollPrompt];
    } else if includeProgress {
      assert order == [Header, Body, Progress];
    } else if includeScrollPrompt {
      assert order == [Header, Body, ScrollPrompt];
    } else {
      assert order == [Header, Body];
    }
  }

  /** An in-tween animates header, body, progress, scroll prompt, in that
      order, leaving out what was not requested. */
  lemma InOrder(includeProgress: bool, includeScrollPrompt: bool)
    ensures ComponentOrder(false, includeProgress, includeScrollPrompt)
      == [Header, Body] + (if includeProgress then [Progress] else [])
         + (if includeScrollPrompt then [ScrollPrompt] else [])
  {
    var p := if includeProgress then Some(Progress) else None;
    var s := if includeScrollPrompt then Some(ScrollPrompt) else None;
    var slots := Slots(includeProgress, includeScrollPrompt);
    assert slots == [Some(Header)] + [Some(Body)] + [p] + [s];
    PresentAppend([Some(Header)] + [Some(Body)] + [p], [s]);
    PresentAppend([Some(Header)] + [Some(Body)], [p]);
    PresentAppend([Some(Header)], [Some(Body)]);
    PresentSingle(Some(Header));
    PresentSingle(Some(Body));
    PresentSingle(p);
    PresentSingle(s);
  }

  /** An out-tween animates the same components as the in-tween, in
      reverse. */
  lemma OutOrder(includeProgress: bool, includeScrollPrompt: bool)
    ensures ComponentOrder(true, includeProgress, includeScrollPrompt)
      == Reverse(ComponentOrder(false, includeProgress, includeScrollPrompt))
  {
    PresentReverse(Slots(includeProgress, includeScrollPrompt));
  }

  /** The letters-stagger setting as the source reads it: the key built from
      the component's name, falling back to `lettersStagger` when that is
      falsy. For the header this key is `headerLettersStagger`, which the
      defaults do not define. */
  function LettersStaggerAsWritten(config: Settings, c: Component): (r: Option<Value>)
    ensures Truthy(Get(config, Name(c) + "LettersStagger")) ==> r == Get(config, Name(c) + "LettersStagger")
    ensures !Truthy(Get(config, Name(c) + "LettersStagger")) ==> r == Get(config, "lettersStagger")
  {
    var own := Get(config, Name(c) + "LettersStagger");
    if Truthy(own) then own else Get(config, "lettersStagger")
  }

  /** The configuration key for a component's letters stagger, with the
      header reading the `headingLettersStagger` key the defaults define. */
  function StaggerKey(c: Component): (k: string)
    ensures k in Defaults() <==> c != Progress
  {
    var k := match c
      case Header => "headingLettersStagger"
      case Body => "bodyLettersStagger"
      case Progress => "progressLettersStagger"
      case ScrollPrompt => "scrollPromptLettersStagger";
    assert c == Progress ==> k !in Defaults() by {
      if c == Progress {
        assert "progressLettersStagger" !in Defaults().Keys;
      }
    }
    k
  }

  /** The letters stagger used for a component: its own key when truthy,
      else `lettersStagger`. */
  function LettersStagger(config: Settings, c: Component): (r: Option<Value>)
    ensures Truthy(Get(config, StaggerKey(c))) ==> r == Get(config, StaggerKey(c))
    ensures !Truthy(Get(config, StaggerKey(c))) ==> r == Get(config, "lettersStagger")
  {
    var own := Get(config, StaggerKey(c));
    if Truthy(own) then own else Get(config, "lettersStagger")
  }

  /** Over the resolved configuration, a caller's truthy stagger for the
      component wins, and otherwise the caller's `lettersStagger` when given. */
  lemma LettersStaggerResolved(user: Settings, c: Component)
    ensures Truthy(Get(user, StaggerKey(c))) ==>
      LettersStagger(Resolve(user), c) == Get(user, StaggerKey(c))
    ensures !Truthy(Get(Resolve(user), StaggerKey(c))) && "lettersStagger" in user ==>
      LettersStagger(Resolve(user), c) == Get(user, "lettersStagger")
  {
  }

  /** With no options the defaults give 0.06 for header and progress and
      0.0055 for body and scroll prompt. */
  lemma LettersStaggerDefaults(c: Component)
    ensures LettersStagger(Resolve(map[]), c)
      == Some(Num(if c == Header || c == Progress then 0.06 else 0.0055))
  {
    ResolveDefaults(map[]);
    StaggerDefaults();
  }

  /** As written, the header's stagger does not depend on the caller's
      `headingLettersStagger` at all. */
  lemma HeadingStaggerIgnored(user: Settings)
    ensures LettersStaggerAsWritten(Resolve(user), Header)
      == LettersStaggerAsWritten(Resolve(user - {"headingLettersStagger"}), Header)
  {
    var key := Name(Header) + "LettersStagger";
    // "headerLettersStagger" and "headingLettersStagger" first differ at index 4.
    assert key[4] == 'e';
    ResolveWithout(user, "headingLettersStagger", key);
    ResolveWithout(user, "headingLettersStagger", "lettersStagger");
  }

  /** As written, no value stored under `headingLettersStagger` reaches the
      header, in any configuration. */
  lemma HeadingKeyUnread(config: Settings, v: Value)
    ensures LettersStaggerAsWritten(config["headingLettersStagger" := v], Header)
      == LettersStaggerAsWritten(config, Header)
  {
  }

  /** With the corrected key, a truthy value stored under
      `headingLettersStagger` is the header's stagger, whatever else the
      configuration holds. */
  lemma HeadingKeyRead(config: Settings, v: Value)
    requires Truthy(Some(v))
    ensures LettersStagger(config["headingLettersStagger" := v], Header) == Some(v)
  {
  }

  /** A caller asking for a heading stagger of 0.5 still gets 0.06 as
      written, and 0.5 with the corrected key. */
  lemma HeadingStaggerExample()
    ensures LettersStaggerAsWritten(Resolve(map["headingLettersStagger" := Num(0.5)]), Header)
      == Some(Num(0.06))
    ensures LettersStagger(Resolve(map["headingLettersStagger" := Num(0.5)]), Header)
      == Some(Num(0.5))
  {
    var user := map["headingLettersStagger" := Num(0.5)];
    HeadingStaggerIgnored(user);
    assert user - {"headingLettersStagger"} == map[];
    HeaderDefaultAsWritten();
    LettersStaggerResolved(user, Header);
  }

  lemma HeaderDefaultAsWritten()
    ensures LettersStaggerAsWritten(Resolve(map[]), Header) == Some(Num(0.06))
  {
    var config := Resolve(map[]);
    ResolveDefaults(map[]);
    StaggerDefaults();
    HeaderKey();
    assert Get(config, "headerLettersStagger") == None;
    assert Get(config, "lettersStagger") == Some(Num(0.06));
  }

  lemma HeaderKey()
    ensures Name(Header) + "LettersStagger" == "headerLettersStagger"
  {
  }

  /** One `to` tween of the timeline: its target, the values it animates
      towards, the letters stagger, and its offset after the start label. */
  datatype Tween = Tween(target: Child, opacity: real, rotationX: real,
                         duration: Option<Value>, stagger: Option<Value>, offset: real)

  /** Out-tweens play an array child back to front; the reversal is
      shallow, so nested arrays keep their own order. */
  function Flip(isOut: bool, child: Child): (r: Child)
    ensures r.Element? <==> child.Element?
    ensures !isOut || child.Element? ==> r == child
    ensures isOut && child.Group? ==> r.items == Reverse(child.items)
  {
    if isOut && child.Group? then Group(Reverse(child.items)) else child
  }

  /** Flipping twice restores the child. */
  lemma FlipTwice(child: Child)
    ensures Flip(true, Flip(true, child)) == child
  {
    if child.Group? {
      ReverseInvolutive(child.items);
    }
  }

  /** Which letters-stagger lookup a schedule uses: the one the source
      performs, or the corrected one. */
  datatype StaggerLookup = AsWritten | Corrected

  function StaggerOf(lookup: StaggerLookup, config: Settings, c: Component): Option<Value> {
    match lookup
    case AsWritten => LettersStaggerAsWritten(config, c)
    case Corrected => LettersStagger(config, c)
  }

  /** Only the header's key differs between the two lookups. */
  lemma LookupsAgreeButHeader(config: Settings, c: Component)
    ensures c != Header ==> StaggerOf(AsWritten, config, c) == StaggerOf(Corrected, config, c)
  {
    match c
    case Header =>
    case Body => assert Name(Body) + "LettersStagger" == StaggerKey(Body);
    case Progress => assert Name(Progress) + "LettersStagger" == StaggerKey(Progress);
    case ScrollPrompt => assert Name(ScrollPrompt) + "LettersStagger" == StaggerKey(ScrollPrompt);
  }

  /** `g` tweens `children` as component `k` of the order: one tween per
      child, back to front with arrays reversed for an out-tween, each
      towards the in or out values with the given stagger and duration, and
      child `n` starting componentStagger * k + childStagger * n after the
      label. */
  predicate Scheduled(g: seq<Tween>, children: seq<Child>, isOut: bool, stagger: Option<Value>,
                      duration: Option<Value>, k: nat, componentStagger: real, childStagger: real)
  {
    |g| == |children| &&
    forall n :: 0 <= n < |g| ==>
      g[n].target == Flip(isOut, children[if isOut then |g| - 1 - n else n])
      && g[n].opacity == (if isOut then 0.0 else 1.0)
      && g[n].rotationX == (if isOut then 60.0 else 0.0)
      && g[n].stagger == stagger
      && g[n].duration == duration
      && g[n].offset == componentStagger * k as real + childStagger * n as real
  }

  /** The inner loop of addStageContentTween over one component's children. */
  function Schedule(children: seq<Child>, isOut: bool, stagger: Option<Value>, duration: Option<Value>,
                    k: nat, componentStagger: real, childStagger: real): (g: seq<Tween>)
    ensures Scheduled(g, children, isOut, stagger, duration, k, componentStagger, childStagger)
  {
    var ordered := if isOut then Reverse(children) else children;
    seq(|ordered|, n requires 0 <= n < |ordered| =>
      Tween(Flip(isOut, ordered[n]),
            if isOut then 0.0 else 1.0,
            if isOut then 60.0 else 0.0,
            duration,
            stagger,
            componentStagger * k as real + childStagger * n as real))
  }

  /** `g` is the schedule of component `c`, the `k`-th in order, with the
      lookup's letters stagger and the configured letters duration. */
  predicate IsComponentSchedule(g: seq<Tween>, lookup: StaggerLookup, config: Settings, content: Content,
                                isOut: bool, c: Component, k: nat, componentStagger: real, childStagger: real)
  {
    Scheduled(g, ChildrenOf(content, c), isOut, StaggerOf(lookup, config, c), Get(config, "lettersDuration"),
              k, componentStagger, childStagger)
  }

  /** The tweens of one component. */
  function ComponentTweens(lookup: StaggerLookup, config: Settings, content: Content, isOut: bool,
                           c: Component, k: nat, componentStagger: real, childStagger: real): (r: seq<Tween>)
    ensures IsComponentSchedule(r, lookup, config, content, isOut, c, k, componentStagger, childStagger)
  {
    Schedule(ChildrenOf(content, c), isOut, StaggerOf(lookup, config, c), Get(config, "lettersDuration"),
             k, componentStagger, childStagger)
  }

  /** All tweens of addStageContentTween, one group per component in the
      component order, group `k` scheduled with textComponentStagger and
      textComponentChildStagger. `config` is the resolved configuration,
      which always holds those two keys. */
  function ContentTweens(lookup: StaggerLookup, config: Settings, content: Content, isOut: bool,
                         includeProgress: bool, includeScrollPrompt: bool): (r: seq<seq<Tween>>)
    requires "textComponentStagger" in config && "textComponentChildStagger" in config
    ensures |r| == |ComponentOrder(isOut, includeProgress, includeScrollPrompt)|
    ensures forall k :: 0 <= k < |r| ==>
      IsComponentSchedule(r[k], lookup, config, content, isOut,
                          ComponentOrder(isOut, includeProgress, includeScrollPrompt)[k], k,
                          Stagger(config, "textComponentStagger"),
                          Stagger(config, "textComponentChildStagger"))
  {
    var order := ComponentOrder(isOut, includeProgress, includeScrollPrompt);
    var componentStagger := Stagger(config, "textComponentStagger");
    var childStagger := Stagger(config, "textComponentChildStagger");
    seq(|order|, k requires 0 <= k < |order| =>
      ComponentTweens(lookup, config, content, isOut, order[k], k, componentStagger, childStagger))
  }

  /** A stagger setting read as a number; JavaScript arithmetic counts a
      boolean as 0 or 1. */
  function Stagger(config: Settings, key: string): (x: real)
    requires key in config
    ensures config[key].Num? ==> x == config[key].n
  {
    match config[key]
    case Num(n) => n
    case Flag(b) => if b then 1.0 else 0.0
  }

  /** The corrected schedule is the source's schedule with the header's
      letters stagger alone changed: every tween keeps its target, values,
      duration and offset, and the body, progress and scroll-prompt tweens
      keep their stagger too. */
  lemma CorrectionOnlyHeader(config: Settings, content: Content, isOut: bool,
                             includeProgress: bool, includeScrollPrompt: bool)
    requires "textComponentStagger" in config && "textComponentChildStagger" in config
    ensures var a := ContentTweens(AsWritten, config, content, isOut, includeProgress, includeScrollPrompt);
      var b := ContentTweens(Corrected, config, content, isOut, includeProgress, includeScrollPrompt);
      |a| == |b| && forall k :: 0 <= k < |a| ==> SameButStagger(a[k], b[k])
    ensures var a := ContentTweens(AsWritten, config, content, isOut, includeProgress, includeScrollPrompt);
      var b := ContentTweens(Corrected, config, content, isOut, includeProgress, includeScrollPrompt);
      var order := ComponentOrder(isOut, includeProgress, includeScrollPrompt);
      forall k :: 0 <= k < |a| && order[k] != Header ==> a[k] == b[k]
  {
    var a := ContentTweens(AsWritten, config, content, isOut, includeProgress, includeScrollPrompt);
    var b := ContentTweens(Corrected, config, content, isOut, includeProgress, includeScrollPrompt);
    var order := ComponentOrder(isOut, includeProgress, includeScrollPrompt);
    forall k | 0 <= k < |a|
      ensures SameButStagger(a[k], b[k])
      ensures order[k] != Header ==> a[k] == b[k]
    {
      LookupsAgreeButHeader(config, order[k]);
      if order[k] != Header {
        assert |a[k]| == |b[k]|;
        forall n | 0 <= n < |a[k]| ensures a[k][n] == b[k][n] {
        }
      }
    }
  }

  /** Two groups of tweens that differ at most in their stagger. */
  predicate SameButStagger(a: seq<Tween>, b: seq<Tween>) {
    |a| == |b| && forall n :: 0 <= n < |a| ==> a[n] == b[n].(stagger := a[n].stagger)
  }

  /** `o` plays `i` backwards: the groups in reverse order, and in each
      group the targets in reverse order with characters reversed. */
  predicate Mirrors(o: seq<seq<Tween>>, i: seq<seq<Tween>>) {
    |o| == |i| &&
    forall k :: 0 <= k < |o| ==> MirrorsGroup(o[k], i[|i| - 1 - k])
  }

  predicate MirrorsGroup(o: seq<Tween>, i: seq<Tween>) {
    |o| == |i| &&
    forall n :: 0 <= n < |o| ==> o[n].target == Flip(true, i[|i| - 1 - n].target)
  }

  /** The out-tweens mirror the in-tweens: the same components and children
      in reverse order, with characters reversed. */
  lemma OutMirrorsIn(lookup: StaggerLookup, config: Settings, content: Content,
                     includeProgress: bool, includeScrollPrompt: bool)
    requires "textComponentStagger" in config && "textComponentChildStagger" in config
    ensures Mirrors(ContentTweens(lookup, config, content, true, includeProgress, includeScrollPrompt),
                    ContentTweens(lookup, config, content, false, includeProgress, includeScrollPrompt))
  {
    var i := ContentTweens(lookup, config, content, false, includeProgress, includeScrollPrompt);
    var o := ContentTweens(lookup, config, content, true, includeProgress, includeScrollPrompt);
    var inOrder := ComponentOrder(false, includeProgress, includeScrollPrompt);
    var outOrder := ComponentOrder(true, includeProgress, includeScrollPrompt);
    var cs := Stagger(config, "textComponentStagger");
    var ccs := Stagger(config, "textComponentChildStagger");
    OutOrder(includeProgress, includeScrollPrompt);
    assert |o| == |i|;
    forall k | 0 <= k < |o|
      ensures MirrorsGroup(o[k], i[|i| - 1 - k])
    {
      var m := |i| - 1 - k;
      var c := inOrder[m];
      assert outOrder[k] == c;
      assert IsComponentSchedule(o[k], lookup, config, content, true, c, k, cs, ccs);
      assert IsComponentSchedule(i[m], lookup, config, content, false, c, m, cs, ccs);
      GroupMirror(ChildrenOf(content, c), o[k], i[m], StaggerOf(lookup, config, c),
                  Get(config, "lettersDuration"), k, m, cs, ccs);
    }
  }

  /** Out- and in-tweens of the same children mirror each other, wherever
      in the order either group stands. */
  lemma GroupMirror(children: seq<Child>, o: seq<Tween>, i: seq<Tween>, stagger: Option<Value>,
                    duration: Option<Value>, ko: nat, ki: nat, componentStagger: real, childStagger: real)
    requires Scheduled(o, children, true, stagger, duration, ko, componentStagger, childStagger)
    requires Scheduled(i, children, false, stagger, duration, ki, componentStagger, childStagger)
    ensures MirrorsGroup(o, i)
  {
    forall n | 0 <= n < |o|
      ensures o[n].target == Flip(true, i[|i| - 1 - n].target)
    {
      assert i[|o| - 1 - n].target == children[|o| - 1 - n];
    }
  }
}
