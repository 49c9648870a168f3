# MDX callout rewriting, modelled in Dafny

This documentation site renders Markdown/MDX pages. A markdown extension
lowers each callout block (an admonition such as a note or a warning) to
nested `div` elements that carry marker attributes:

- `data-callout` on the container;
- `data-callout-type` for its type;
- `data-callout-title` on the element holding the title text;
- `data-callout-body` on the element holding the body.

The hook `useMDXComponents` in `mdx-components.tsx` overrides how every
MDX `div` is rendered. The override looks at those markers and does one
of four things:

- renders nothing for a title element;
- unwraps a body element to its children;
- turns a container into a typed `Callout` whose title is the type name
  passed through `capitalize`;
- re-emits any other `div` unchanged.

The model is one module, `MdxComponents` (`mdx_components.dfy`). It holds:

- `Props`, the attribute record the override receives;
- `Rendered`, its four outcomes;
- `RenderDiv`, the override itself;
- `Capitalize`, with the per-character case mapping it relies on;
- lemmas for each branch, for the order the branches are tried in, and for
  the length, idempotence and fixed points of `Capitalize`.

Attribute values follow JavaScript truthiness exactly as the source tests
them:

- a title or body marker counts only when it is a non-empty string;
- the `data-callout` flag counts only when it is `true`;
- `??` replaces only an absent type, so a present but unknown type such as
  "danger" is kept verbatim.

Children are an opaque type parameter, so nothing in the override can
inspect or reorder them.

Three consequences of the code are worth stating on their own:

- An unrecognised type such as "danger" is kept as written and titled
  with its capitalized form, "Danger".
- The title always comes from the type; the title element itself is
  dropped.
- An absent type gives type "note" with title "" (not "Note"), because the
  title is `capitalize(type ?? "")`.

## Model

| member | source | states |
|---|---|---|
| `MdxComponents.Upper` | mdx-components.tsx:10 | a lower-case letter becomes the upper-case form of the same letter; the upper-cased character is never a lower-case letter, letters stay letters, and any character that is not a lower-case letter is unchanged |
| `MdxComponents.Lower` | mdx-components.tsx:10 | an upper-case letter becomes the lower-case form of the same letter; the lower-cased character is never an upper-case letter, letters stay letters, and any character that is not an upper-case letter is unchanged |
| `MdxComponents.CaseMappingsAgree` | mdx-components.tsx:10 | upper- and lower-casing agree on which letter a character is: `Lower(Upper(c)) == Lower(c)` and `Upper(Lower(c)) == Upper(c)` |
| `MdxComponents.LowerString` | mdx-components.tsx:10 | lower-casing a string keeps its length and lower-cases each character at its own position |
| `MdxComponents.LowerStringIdempotent` | mdx-components.tsx:10 | lower-casing an already lower-cased string changes nothing |
| `MdxComponents.Capitalize` | mdx-components.tsx:8-14 | the empty string is returned unchanged; otherwise the length is kept, position 0 is `Upper(s[0])` and every later position `i` is `Lower(s[i])`; the result is always in capitalized form |
| `MdxComponents.CapitalizeFixesExactlyCapitalized` | mdx-components.tsx:8-14 | `capitalize(s) == s` exactly when `s` is already in capitalized form (no lower-case first letter, no later upper-case letter) |
| `MdxComponents.CapitalizeIdempotent` | mdx-components.tsx:8-14 | `capitalize(capitalize(s)) == capitalize(s)` for every string |
| `MdxComponents.CapitalizeKeepsLettersIgnoringCase` | mdx-components.tsx:8-14 | ignoring case, `capitalize(s)` is `s`: only the case of letters changes |
| `MdxComponents.CapitalizeLowerWord` | mdx-components.tsx:8-14 | a word that starts with a lower-case letter and has no later upper-case letter is capitalized by raising its first letter to the same upper-case letter and leaving the rest unchanged |
| `MdxComponents.CapitalizeTypeNames` | mdx-components.tsx:8-14 | "warning" and "WARNING" become "Warning", "note" becomes "Note", "danger" becomes "Danger", and "" stays "" |
| `MdxComponents.Coalesce` | mdx-components.tsx:36-37 | `??` yields the attribute's value whenever it is present (even "") and the fallback only when it is absent |
| `MdxComponents.RenderDiv` | mdx-components.tsx:16-45 | takes a `Props` record (the `MaybeCalloutProps` fields of :16-21 plus all other attributes) and returns one of the four `Rendered` outcomes (`null`, children, `Callout`, `<div>`); the tests of :27, :30 and :33 are `TitleMarked`, `BodyMarked` (both `Truthy`: a present, non-empty string) and `CalloutMarked` (exactly `true`); every outcome other than "nothing" carries the element's children unchanged; a re-emitted `div` carries exactly the props it received; a `Callout` only comes from a `data-callout` element, and its title is the capitalized type (or "" without a type) |
| `MdxComponents.TitleMarkerRendersNothing` | mdx-components.tsx:27-29 | the override renders nothing exactly when `data-callout-title` is a non-empty string, whatever other markers or attributes are present |
| `MdxComponents.BodyMarkerUnwraps` | mdx-components.tsx:30-32 | the result is exactly the children, wrapper dropped, exactly when there is no truthy title marker and `data-callout-body` is a non-empty string |
| `MdxComponents.CalloutContainerBecomesCallout` | mdx-components.tsx:33-41 | a `data-callout` element with no truthy title or body marker becomes a `Callout` around its children; its type is the type attribute when present, known or not, and "note" only when absent; its title is the capitalized type when present and "" when absent |
| `MdxComponents.CalloutTypeExamples` | mdx-components.tsx:33-41 | type "warning" gives `Callout("warning", "Warning")`, "note" gives `Callout("note", "Note")`, the unknown "danger" gives `Callout("danger", "Danger")`, and no type gives `Callout("note", "")` |
| `MdxComponents.UnmarkedDivPassesThrough` | mdx-components.tsx:42-44 | the `div` is re-emitted with the same props, falsy `data-callout*` keys included, and the same children exactly when none of the three markers is truthy |
| `MdxComponents.OtherAttributesOnlyPassThrough` | mdx-components.tsx:26-45 | attributes other than the four markers affect only a re-emitted `div`: two elements with the same markers get the same outcome kind and, unless it is a `div`, the same result |
| `MdxComponents.PassthroughIdempotent` | mdx-components.tsx:42-44 | rendering a re-emitted `div` again gives the same `div` |
| `MdxComponents.BranchesTriedInOrder` | mdx-components.tsx:27-44 | every element gets exactly one outcome: the one for the first truthy marker in the order title, body, callout flag, or the passthrough when none is truthy |

## Left out

- Upper, Lower: the locale-sensitive Unicode case mapping of `toLocaleUpperCase`/`toLocaleLowerCase` is reduced to ASCII letters, and every other character maps to itself. The real mapping can change a string's length ('ß' becomes "SS") and depends on the locale (Turkish dotted i), which a per-character model cannot capture.
- Strings are sequences of characters. JavaScript strings are UTF-16 code units, so `s[0]` of a string starting with an astral character is half of a surrogate pair. The model does not distinguish this.
- `useMDXComponents` spreads an empty `components` object and adds `div`. The model covers only that `div` entry (`RenderDiv`), since the spread adds nothing.
- Attributes other than the four markers are modelled as a string-to-string map. The override only passes them along, so their real JavaScript value types do not matter.
- The marker attributes are typed as declared in `MaybeCalloutProps`, except `data-callout-type`, which is any optional string (`Option<string>`), wider than the declared `"note" | "warning"`, because the override passes any present value through. A non-boolean `data-callout` or a non-string title or body would follow JavaScript truthiness more broadly; the model does not cover such values.
- The `Callout` component (components/Callouts) is not part of this model. It is treated as an opaque constructor carrying the type, title and children.
- React rendering itself is not modelled: how the returned element, `null` or children array is rendered, and how the override is applied to every `div` of a document.
- Page layouts, the article shell, the logo, the root layout, the navigation data and the MDX pipeline configuration are not modelled. They are presentational components, static data, or configuration of external plugins with no logic in this repository. The previous/next lookup over the navigation data lives in a component that is not part of this model.
