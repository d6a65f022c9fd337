/**
  The status indicator on the back-to-top button: its class list keeps every
  class it had except the four status classes, and gains the current status
  type at the end; the tooltip beside it gets a text chosen by the type.
 */
module BackToTop {
  import opened Text
  import opened BusinessHours

  /** The class names the indicator owns. */
  const StatusClasses: seq<string> := ["open", "closed", "closing-soon", "opening-soon"]

  predicate IsStatusClass(c: string) {
    c in StatusClasses
  }

  /** The classes of `cs` that are not status classes, in their original order. */
  function WithoutStatusClasses(cs: seq<string>): (r: seq<string>)
    ensures forall c :: c in r ==> c in cs && !IsStatusClass(c)
    ensures forall c :: c in cs && !IsStatusClass(c) ==> c in r
  {
    if cs == [] then []
    else
      var init, last := cs[..|cs| - 1], cs[|cs| - 1];
      assert cs == init + [last];
      WithoutStatusClasses(init) + (if IsStatusClass(last) then [] else [last])
  }

  /** The status classes of `cs`, in their original order. */
  function StatusClassesIn(cs: seq<string>): (r: seq<string>)
    ensures forall c :: c in r ==> IsStatusClass(c)
  {
    if cs == [] then []
    else
      var init, last := cs[..|cs| - 1], cs[|cs| - 1];
      StatusClassesIn(init) + (if IsStatusClass(last) then [last] else [])
  }

  /**
    Filtering distributes over concatenation: the kept classes of `a + b` are
    those of `a` followed by those of `b`, so order and repeats are kept.
   */
  lemma {:induction false} WithoutStatusClassesAppend(a: seq<string>, b: seq<string>)
    ensures WithoutStatusClasses(a + b) == WithoutStatusClasses(a) + WithoutStatusClasses(b)
    decreases |b|
  {
    if b == [] {
      assert a + b == a;
    } else {
      var init, last := b[..|b| - 1], b[|b| - 1];
      var tail := if IsStatusClass(last) then [] else [last];
      assert (a + b)[..|a + b| - 1] == a + init;
      assert (a + b)[|a + b| - 1] == last;
      assert WithoutStatusClasses(a + b) == WithoutStatusClasses(a + init) + tail;
      assert WithoutStatusClasses(b) == WithoutStatusClasses(init) + tail;
      WithoutStatusClassesAppend(a, init);
    }
  }

  /** A single class is kept exactly when it is not a status class. */
  lemma WithoutStatusClassesSingle(c: string)
    ensures WithoutStatusClasses([c]) == if IsStatusClass(c) then [] else [c]
  {
    assert [c][..0] == [];
  }

  /** The class attribute after the update. */
  function RewriteClassName(className: string, k: StatusType): (r: string)
    ensures var t := TypeName(k); |t| <= |r| && r[|r| - |t|..] == t
  {
    var parts := WithoutStatusClasses(Split(className, ' ')) + [TypeName(k)];
    JoinEndsWithLast(parts, ' ');
    Join(parts, ' ')
  }

  /** The type names are exactly the status classes, one per type, and contain no space. */
  lemma TypeNameIsStatusClass(k: StatusType, k': StatusType)
    ensures IsStatusClass(TypeName(k)) && ' ' !in TypeName(k)
    ensures TypeName(k) == TypeName(k') <==> k == k'
    ensures forall c :: IsStatusClass(c) ==> exists t :: TypeName(t) == c
  {
    assert TypeName(Open) == "open";
    assert TypeName(Closed) == "closed";
    assert TypeName(ClosingSoon) == "closing-soon";
    assert TypeName(OpeningSoon) == "opening-soon";
  }

  /**
    Read back as a class list, the new attribute is the old list without its
    status classes, in the old order, followed by the status type.
   */
  lemma RewriteTokens(className: string, k: StatusType)
    ensures Split(RewriteClassName(className, k), ' ')
         == WithoutStatusClasses(Split(className, ' ')) + [TypeName(k)]
  {
    var parts := WithoutStatusClasses(Split(className, ' ')) + [TypeName(k)];
    TypeNameIsStatusClass(k, k);
    assert forall p :: p in parts ==> ' ' !in p;
    SplitJoin(parts, ' ');
  }

  lemma {:induction false} NoStatusClassesLeft(cs: seq<string>)
    requires forall c :: c in cs ==> !IsStatusClass(c)
    ensures StatusClassesIn(cs) == []
  {
    if cs != [] {
      var init := cs[..|cs| - 1];
      assert forall c :: c in init ==> c in cs;
      assert cs[|cs| - 1] in cs;
      NoStatusClassesLeft(init);
    }
  }

  lemma StatusClassesInAppend(cs: seq<string>, c: string)
    ensures StatusClassesIn(cs + [c]) == StatusClassesIn(cs) + (if IsStatusClass(c) then [c] else [])
  {
    assert (cs + [c])[..|cs|] == cs;
  }

  /**
    After the update the class list holds exactly one status class: its last
    token is the new type and no earlier token is a status class.
   */
  lemma ExactlyOneStatusClass(className: string, k: StatusType)
    ensures StatusClassesIn(Split(RewriteClassName(className, k), ' ')) == [TypeName(k)]
    ensures var tokens := Split(RewriteClassName(className, k), ' ');
      && tokens[|tokens| - 1] == TypeName(k)
      && forall i :: 0 <= i < |tokens| - 1 ==> !IsStatusClass(tokens[i])
  {
    RewriteTokens(className, k);
    TypeNameIsStatusClass(k, k);
    var kept := WithoutStatusClasses(Split(className, ' '));
    NoStatusClassesLeft(kept);
    StatusClassesInAppend(kept, TypeName(k));
    var tokens := kept + [TypeName(k)];
    assert forall i :: 0 <= i < |tokens| - 1 ==> tokens[i] in kept;
  }

  /** The tooltip text for each type. */
  function TooltipText(k: StatusType): (text: string)
    ensures |text| > 2 && text[1] == ' '
    ensures text[0] in {'\U{1F7E2}', '\U{1F7E1}', '\U{1F534}', '\U{1F535}'}
  {
    match k
    case Open => "\U{1F7E2} We're Open!"
    case ClosingSoon => "\U{1F7E1} Closing Soon"
    case Closed => "\U{1F534} Currently Closed"
    case OpeningSoon => "\U{1F535} Opening Soon"
  }

  /** Each type has its own tooltip, marked by a different coloured circle. */
  lemma TooltipDistinct(k: StatusType, k': StatusType)
    ensures TooltipText(k) == TooltipText(k') <==> k == k'
  {
    if k != k' {
      assert TooltipText(k)[0] != TooltipText(k')[0];
    }
  }

  /** A page element: its class attribute and its text. */
  class Element {
    var className: string
    var textContent: string

    constructor (className: string, textContent: string)
      ensures this.className == className && this.textContent == textContent
    {
      this.className := className;
      this.textContent := textContent;
    }
  }

  /**
    Updates the button's class list and, when the button exists, the
    tooltip's text. Either element may be missing from the page.
   */
  method UpdateBackToTopStatus(backToTop: Element?, tooltip: Element?, status: Status)
    requires backToTop == null || backToTop != tooltip
    modifies backToTop, tooltip
    ensures backToTop != null ==>
      backToTop.className == RewriteClassName(old(backToTop.className), status.kind)
      && backToTop.textContent == old(backToTop.textContent)
    ensures backToTop != null && tooltip != null ==>
      tooltip.textContent == TooltipText(status.kind) && tooltip.className == old(tooltip.className)
    ensures backToTop == null && tooltip != null ==> unchanged(tooltip)
  {
    if backToTop != null {
      var classes := Split(backToTop.className, ' ');
      var kept: seq<string> := [];
      for i := 0 to |classes|
        invariant kept == WithoutStatusClasses(classes[..i])
      {
        assert classes[..i + 1][..i] == classes[..i];
        if !IsStatusClass(classes[i]) {
          kept := kept + [classes[i]];
        }
      }
      assert classes[..|classes|] == classes;
      backToTop.className := Join(kept + [TypeName(status.kind)], ' ');
      if tooltip != null {
        tooltip.textContent := TooltipText(status.kind);
      }
    }
  }
}
