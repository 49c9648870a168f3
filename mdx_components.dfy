/**
 * The MDX element-rewriting hook of the documentation site (mdx-components.tsx).
 *
 * `useMDXComponents` installs one override, for `div`. The markdown pipeline
 * lowers each callout block to nested `div`s carrying marker attributes; the
 * override looks at those markers and either drops the element, unwraps it to
 * its children, turns it into a typed `Callout`, or re-emits it unchanged.
 * The callout's title comes from `capitalize`.
 *
 * Attribute values follow JavaScript truthiness exactly as the source tests
 * them: a string marker counts only when it is a non-empty string, the
 * `data-callout` flag only when it is `true`.  Children are an opaque type
 * parameter: the override never looks inside them.
 */
module MdxComponents {

  datatype Option<T> = None | Some(value: T)

  // ---------------------------------------------------------------------
  // Case mapping.  `toLocaleUpperCase` / `toLocaleLowerCase` are abstracted
  // to a per-character mapping of the ASCII letters; every other character
  // maps to itself.
  // ---------------------------------------------------------------------

  predicate IsAsciiLower(c: char) { 'a' <= c <= 'z' }

  predicate IsAsciiUpper(c: char) { 'A' <= c <= 'Z' }

  predicate IsAsciiLetter(c: char) { IsAsciiLower(c) || IsAsciiUpper(c) }

  /** Upper-case one character: a lower-case letter becomes the upper-case
      form of the same letter, the result is never a lower-case letter,
      letters stay letters, and a character that is not a lower-case
      letter is left as it is. */
  function Upper(c: char): (r: char)
    ensures IsAsciiLower(c) ==> r as int - 'A' as int == c as int - 'a' as int
    ensures !IsAsciiLower(r)
    ensures IsAsciiLetter(r) <==> IsAsciiLetter(c)
    ensures !IsAsciiLower(c) ==> r == c
  {
    if IsAsciiLower(c) then (c as int - 'a' as int + 'A' as int) as char else c
  }

  /** Lower-case one character: an upper-case letter becomes the lower-case
      form of the same letter, the result is never an upper-case letter,
      letters stay letters, and a character that is not an upper-case
      letter is left as it is. */
  function Lower(c: char): (r: char)
    ensures IsAsciiUpper(c) ==> r as int - 'a' as int == c as int - 'A' as int
    ensures !IsAsciiUpper(r)
    ensures IsAsciiLetter(r) <==> IsAsciiLetter(c)
    ensures !IsAsciiUpper(c) ==> r == c
  {
    if IsAsciiUpper(c) then (c as int - 'A' as int + 'a' as int) as char else c
  }

  /** The two mappings agree on which letter a character is: mapping either
      way and then lower-casing (or upper-casing) gives the same character. */
  lemma CaseMappingsAgree(c: char)
    ensures Lower(Upper(c)) == Lower(c)
    ensures Upper(Lower(c)) == Upper(c)
  {
  }

  /** `toLocaleLowerCase` on a whole string: every character lower-cased,
      in place, nothing added or removed. */
  function LowerString(s: string): (r: string)
    ensures |r| == |s|
    ensures forall i :: 0 <= i < |s| ==> r[i] == Lower(s[i])
  {
    if s == [] then [] else [Lower(s[0])] + LowerString(s[1..])
  }

  /** Lower-casing a string twice is the same as lower-casing it once. */
  lemma LowerStringIdempotent(s: string)
    ensures LowerString(LowerString(s)) == LowerString(s)
  {
    var once := LowerString(s);
    var twice := LowerString(once);
    assert |twice| == |once|;
    forall i | 0 <= i < |once|
      ensures twice[i] == once[i]
    {
      assert !IsAsciiUpper(once[i]);
    }
  }

  /** A string is in capitalized form when it is empty, or its first
      character is not a lower-case letter and no later character is an
      upper-case letter. */
  predicate IsCapitalized(s: string) {
    |s| == 0 || (!IsAsciiLower(s[0]) && forall i :: 0 < i < |s| ==> !IsAsciiUpper(s[i]))
  }

  /** `capitalize` (mdx-components.tsx:8-14): the empty string is returned
      as it is; otherwise the first character is upper-cased and every later
      character lower-cased, position by position. */
  function Capitalize(s: string): (r: string)
    ensures |r| == |s|
    ensures s == [] ==> r == []
    ensures |s| > 0 ==> r[0] == Upper(s[0])
    ensures forall i :: 0 < i < |s| ==> r[i] == Lower(s[i])
    ensures IsCapitalized(r)
  {
    if |s| > 0 then [Upper(s[0])] + LowerString(s[1..]) else s
  }

  /** `capitalize` changes exactly the strings that are not yet in
      capitalized form. */
  lemma CapitalizeFixesExactlyCapitalized(s: string)
    ensures Capitalize(s) == s <==> IsCapitalized(s)
  {
    if IsCapitalized(s) && |s| > 0 {
      var r := Capitalize(s);
      forall i | 0 <= i < |s|
        ensures r[i] == s[i]
      {
        if i > 0 {
          assert !IsAsciiUpper(s[i]);
        }
      }
    }
  }

  /** `capitalize` is idempotent. */
  lemma CapitalizeIdempotent(s: string)
    ensures Capitalize(Capitalize(s)) == Capitalize(s)
  {
    CapitalizeFixesExactlyCapitalized(Capitalize(s));
  }

  /** `capitalize` changes only the case of letters: ignoring case, the
      result is the input. */
  lemma CapitalizeKeepsLettersIgnoringCase(s: string)
    ensures LowerString(Capitalize(s)) == LowerString(s)
  {
    var r := Capitalize(s);
    forall i | 0 <= i < |s|
      ensures LowerString(r)[i] == LowerString(s)[i]
    {
      CaseMappingsAgree(s[i]);
    }
  }

  /** `capitalize` of a word whose first character is a lower-case letter
      and whose other characters are not upper-case letters: the first
      letter is raised and nothing else changes. */
  lemma CapitalizeLowerWord(s: string, t: string)
    requires |s| > 0 && IsAsciiLower(s[0])
    requires forall i :: 0 < i < |s| ==> !IsAsciiUpper(s[i])
    requires |t| == |s| && t[0] as int - 'A' as int == s[0] as int - 'a' as int
    requires forall i :: 0 < i < |s| ==> t[i] == s[i]
    ensures Capitalize(s) == t
  {
    var r := Capitalize(s);
    forall i | 0 <= i < |s|
      ensures r[i] == t[i]
    {
      if i > 0 {
        assert !IsAsciiUpper(s[i]);
      }
    }
  }

  /** The type names the site uses come out as display titles. */
  lemma CapitalizeTypeNames()
    ensures Capitalize("warning") == "Warning"
    ensures Capitalize("note") == "Note"
    ensures Capitalize("WARNING") == "Warning"
    ensures Capitalize("danger") == "Danger"
    ensures Capitalize("") == ""
  {
    CapitalizeLowerWord("warning", "Warning");
    CapitalizeLowerWord("note", "Note");
    CapitalizeLowerWord("danger", "Danger");
    var r := Capitalize("WARNING");
    assert |r| == 7;
    forall i | 0 <= i < 7
      ensures r[i] == "Warning"[i]
    {
    }
  }

  // ---------------------------------------------------------------------
  // The `div` override.
  // ---------------------------------------------------------------------

  /** The props a rendered `div` receives, children split off
      (`MaybeCalloutProps`, mdx-components.tsx:16-21, plus every other
      attribute, which the override only passes along). */
  datatype Props = Props(
    callout: Option<bool>,          // "data-callout"
    calloutType: Option<string>,    // "data-callout-type"
    calloutTitle: Option<string>,   // "data-callout-title"
    calloutBody: Option<string>,    // "data-callout-body"
    others: map<string, string>)    // all remaining attributes

  /** JavaScript truthiness of an optional string attribute. */
  predicate Truthy(v: Option<string>) {
    v.Some? && v.value != ""
  }

  /** The element holds a callout's title text. */
  predicate TitleMarked(p: Props) { Truthy(p.calloutTitle) }

  /** The element holds a callout's body. */
  predicate BodyMarked(p: Props) { Truthy(p.calloutBody) }

  /** The element is a callout container. */
  predicate CalloutMarked(p: Props) { p.callout == Some(true) }

  /** The nullish-coalescing operator `??` on an optional string: only an
      absent value is replaced; a present value, even "", is kept. */
  function Coalesce(v: Option<string>, fallback: string): (r: string)
    ensures v.Some? ==> r == v.value
    ensures v.None? ==> r == fallback
  {
    match v
    case Some(s) => s
    case None => fallback
  }

  /** What the override renders in place of the `div`. */
  datatype Rendered<C> =
    | Nothing                                          // `null`
    | Children(children: C)                            // the children, unwrapped
    | Callout(kind: string, title: string, children: C) // `<Callout type title>`
    | Div(props: Props, children: C)                   // `<div {...props}>`

  /** The `div` override of `useMDXComponents` (mdx-components.tsx:26-45).
      Whatever it returns, the children are carried along untouched, and a
      re-emitted `div` carries exactly the props it was given. */
  function RenderDiv<C>(p: Props, children: C): (r: Rendered<C>)
    ensures r.Nothing? || r.children == children
    ensures r.Div? ==> r.props == p
    ensures r.Callout? ==> CalloutMarked(p) && r.title == Capitalize(Coalesce(p.calloutType, ""))
  {
    if TitleMarked(p) then
      Nothing
    else if BodyMarked(p) then
      Children(children)
    else if CalloutMarked(p) then
      Callout(Coalesce(p.calloutType, "note"), Capitalize(Coalesce(p.calloutType, "")), children)
    else
      Div(p, children)
  }

  /** A title-marker element renders nothing, whatever other markers,
      type, body or attributes it carries; and only such an element does. */
  lemma TitleMarkerRendersNothing<C>(p: Props, children: C)
    ensures RenderDiv(p, children) == Nothing <==> TitleMarked(p)
  {
  }

  /** An element with no truthy title marker and a truthy body marker is
      replaced by exactly its children, whatever its callout flag or type;
      and only such an element is unwrapped. */
  lemma BodyMarkerUnwraps<C>(p: Props, children: C)
    ensures RenderDiv(p, children) == Children(children) <==> !TitleMarked(p) && BodyMarked(p)
  {
  }

  /** A callout container becomes a `Callout` whose type is the
      `data-callout-type` value when present (kept verbatim, known or not)
      and "note" only when absent; its title is the capitalized type when
      present and the empty string when absent. */
  lemma CalloutContainerBecomesCallout<C>(p: Props, children: C)
    requires !TitleMarked(p) && !BodyMarked(p) && CalloutMarked(p)
    ensures RenderDiv(p, children).Callout?
    ensures RenderDiv(p, children).children == children
    ensures p.calloutType.Some? ==>
      RenderDiv(p, children).kind == p.calloutType.value &&
      RenderDiv(p, children).title == Capitalize(p.calloutType.value)
    ensures p.calloutType.None? ==>
      RenderDiv(p, children).kind == "note" && RenderDiv(p, children).title == ""
  {
  }

  /** The type values the markup produces, and one it does not. */
  lemma CalloutTypeExamples<C>(others: map<string, string>, children: C)
    ensures RenderDiv(Props(Some(true), Some("warning"), None, None, others), children)
            == Callout("warning", "Warning", children)
    ensures RenderDiv(Props(Some(true), Some("note"), None, None, others), children)
            == Callout("note", "Note", children)
    ensures RenderDiv(Props(Some(true), Some("danger"), None, None, others), children)
            == Callout("danger", "Danger", children)
    ensures RenderDiv(Props(Some(true), None, None, None, others), children)
            == Callout("note", "", children)
  {
    CapitalizeTypeNames();
    CalloutContainerBecomesCallout(Props(Some(true), Some("warning"), None, None, others), children);
    CalloutContainerBecomesCallout(Props(Some(true), Some("note"), None, None, others), children);
    CalloutContainerBecomesCallout(Props(Some(true), Some("danger"), None, None, others), children);
    CalloutContainerBecomesCallout(Props(Some(true), None, None, None, others), children);
  }

  /** A `div` with no truthy marker is re-emitted with the same props --
      falsy `data-callout*` keys included -- and the same children; and only
      such a `div` is re-emitted. */
  lemma UnmarkedDivPassesThrough<C>(p: Props, children: C)
    ensures RenderDiv(p, children) == Div(p, children) <==>
      !TitleMarked(p) && !BodyMarked(p) && !CalloutMarked(p)
  {
  }

  /** Only a passthrough depends on the attributes other than the markers:
      two elements with the same marker attributes render alike unless both
      are re-emitted as `div`s. */
  lemma OtherAttributesOnlyPassThrough<C>(p: Props, q: Props, children: C)
    requires p.callout == q.callout && p.calloutType == q.calloutType
    requires p.calloutTitle == q.calloutTitle && p.calloutBody == q.calloutBody
    ensures RenderDiv(p, children).Div? == RenderDiv(q, children).Div?
    ensures !RenderDiv(p, children).Div? ==> RenderDiv(p, children) == RenderDiv(q, children)
  {
  }

  /** Rendering a re-emitted `div` once more changes nothing: the markers
      that sent it down the passthrough branch are still there. */
  lemma PassthroughIdempotent<C>(p: Props, children: C)
    requires RenderDiv(p, children).Div?
    ensures RenderDiv(RenderDiv(p, children).props, RenderDiv(p, children).children)
            == RenderDiv(p, children)
  {
  }

  // ---------------------------------------------------------------------
  // Branch order.  The override tries the markers in a fixed priority
  // order: title, body, callout flag, then the passthrough.
  // ---------------------------------------------------------------------

  /** Index of the first set flag, or the length when none is set. */
  function FirstSet(flags: seq<bool>): (k: nat)
    ensures k <= |flags|
    ensures forall j :: 0 <= j < k ==> !flags[j]
    ensures k < |flags| ==> flags[k]
  {
    if flags == [] || flags[0] then 0 else 1 + FirstSet(flags[1..])
  }

  /** The position of an outcome in the priority order. */
  function Rank<C>(r: Rendered<C>): nat {
    match r
    case Nothing => 0
    case Children(_) => 1
    case Callout(_, _, _) => 2
    case Div(_, _) => 3
  }

  /** The marker tests, in the order the override tries them. */
  function Markers(p: Props): seq<bool> {
    [TitleMarked(p), BodyMarked(p), CalloutMarked(p)]
  }

  /** Every element gets exactly one outcome, namely the one belonging to
      the first marker that is truthy, or the passthrough when none is. */
  lemma BranchesTriedInOrder<C>(p: Props, children: C)
    ensures Rank(RenderDiv(p, children)) == FirstSet(Markers(p))
  {
    var m := Markers(p);
    var k := FirstSet(m);
    assert k <= 3;
    if k == 3 {
      assert !m[0] && !m[1] && !m[2];
    }
  }
}
