# Muebles Excalibur page script: a model of its event handlers

The page script of the furniture shop's marketing site attaches its event
listeners when the page loads. Most of them only touch the DOM. Seven of them
hold small decision rules and state updates, and this project models and
proves those:

- the mobile menu toggle;
- the header shadow on scroll;
- highlighting the navigation link of the section in view;
- the product filter buttons;
- the single-open FAQ accordion;
- the file input's `change` handler, which limits the selection and picks the files to preview;
- the order form's `submit` validation, including its WhatsApp number pattern.

A class flag on a list of elements (`classList` `active`) is a `bool` in an
`array<bool>`, kept in document order. Each handler that loops over a
NodeList is a method with a loop. That method is proved equal to a function
of the old state, and the promised properties are lemmas about that function.
Inline styles are strings holding the values the script writes.
Scroll offsets and element offsets are `int`. An absent `data-*` attribute is
`None`.

Modules, one per handler plus shared helpers:

- `Flags`: flag sequences (`Cleared`, `OnlyActive`, `AtMostOne`, `ExactlyOne`) and `ClearAll`, the clearing loop that every handler runs.
- `Menu`, `HeaderScroll`: the two-state rules, as classes whose methods update their fields.
- `NavHighlight`, `ProductFilter`, `FaqAccordion`: methods over flag arrays.
- `FileUpload`: the file input, as a class.
- `JsText`: the ECMAScript whitespace set, `trim()` and `replace(/\s/g, '')`.
- `PhonePattern`: the phone regular expression as a list of repeated character classes. `Matches` is its backtracking meaning (the whole text splits into one piece per item). `GreedyMatch` is a hand-written one-pass matcher. The two are proved to agree on every pattern that satisfies `Deterministic`, and the phone pattern is one.
- `OrderForm`: the submit decision and the submit button.

Behaviour worth knowing that the model keeps as the code has it:

- The furniture type is checked untrimmed, so a value of one space passes. The other three fields are trimmed first.
- Trimming before removing whitespace makes no difference (`OrderForm.PhoneTextIgnoresTrim`). The `\s` alternative in the separator class can therefore never match.
- The pattern accepts 10 to 12 digits. It accepts an opening parenthesis that is never closed, and a closing one that was never opened.
- A filter button without `data-filter` compares `undefined === undefined`. So it shows exactly the cards that have no `data-category`.
- When no linked section contains the scroll position, the nav links keep whatever flags they had. When several do, the last one in document order wins.
- A card the filter hides keeps its previous `animation` style. Only shown cards get the fade-in.

## Model

| member | source | states |
|---|---|---|
| Flags.OnlyActive | script.js:65-66 | clearing every flag and then setting the one at `k` leaves exactly one active element, the one at `k` |
| Flags.ClearAll | script.js:112 | after the loop every flag of the NodeList is off |
| Menu.OverflowFor | script.js:18 | the body overflow is "hidden" exactly when the nav panel is open, and "" exactly when it is not |
| Menu.MobileMenu.ToggleClick | script.js:15-19 | the toggle flag and the nav flag both flip; the overflow is then hidden iff the nav is open; a consistent menu stays consistent |
| Menu.MobileMenu.NavLinkClick | script.js:22-28 | after any nav link click, toggle and nav are inactive and the overflow is restored to "" |
| HeaderScroll.ShadowFor | script.js:40-44 | the shadow is the scrolled value iff `pageYOffset > 100`, otherwise the resting value |
| HeaderScroll.ShadowMonotone | script.js:40-44 | scrolling further down never takes the scrolled shadow away |
| HeaderScroll.Header.constructor | script.js:34-35 | `lastScroll` starts at 0 |
| HeaderScroll.Header.OnScroll | script.js:37-47 | the header's box shadow is the one chosen for the offset, and `lastScroll` records the offset |
| NavHighlight.LastHit | script.js:57-69 | returns the last section in document order that has a link and whose interval `(top-100, top-100+height]` contains `scrollY`; None exactly when there is no such section |
| NavHighlight.Highlight | script.js:54-70 | the section loop, with its clear-all and mark-one steps, leaves the link flags as `AfterHighlight` describes |
| NavHighlight.LastHitWins | script.js:57-69 | if section k is hit and no later section is, exactly one link is active afterwards, namely section k's |
| NavHighlight.SomeHitActivatesOne | script.js:63-67 | whenever some linked section contains the scroll position, exactly one link is active afterwards |
| NavHighlight.NoHitKeepsLinks | script.js:63-64 | when no linked section contains the scroll position, every link flag is unchanged |
| ProductFilter.Restyle | script.js:90-95 | a visible card gets display "block" and the fade-in animation; a hidden card gets display "none" and keeps its animation |
| ProductFilter.Click | script.js:80-97 | button b becomes the only active button; every card is restyled by the visibility rule for b's filter |
| ProductFilter.ShownIffVisible | script.js:90 | a card is displayed iff the filter is "all" or its category equals the filter, and is hidden otherwise |
| ProductFilter.AllShowsEveryCard | script.js:90-92 | the "all" filter displays every card |
| ProductFilter.NamedFilterShowsItsCategory | script.js:90-95 | any other filter name displays exactly the cards of that category |
| ProductFilter.FilterIdempotent | script.js:82-95 | clicking the same filter twice leaves the cards as one click does |
| ProductFilter.LastClickDecides | script.js:89-95 | which cards are displayed depends only on the last filter clicked |
| FaqAccordion.AfterClick | script.js:108-118 | after a click on item i, every other item is inactive, and i is active iff it was inactive before |
| FaqAccordion.Click | script.js:105-119 | the handler's clear-all loop plus its reopen step leave the flags as `AfterClick` says |
| FaqAccordion.ClickLeavesAtMostOne | script.js:112-117 | whatever the flags were, after any click at most one item is open |
| FaqAccordion.ClickClosedOpensOnlyIt | script.js:115-117 | clicking a closed item makes it the only open one |
| FaqAccordion.ClickOpenClosesAll | script.js:109-115 | clicking the open item leaves no item open |
| FaqAccordion.OpenAnotherThenCloseIt | script.js:108-118 | with A open, clicking B opens B alone; clicking B again leaves none open |
| FaqAccordion.ClickTwiceRestores | script.js:108-118 | when no other item is open, two clicks on the same item restore the flags |
| FileUpload.ImageIndices | script.js:138-139 | the previewed indices are exactly the files whose type starts with "image/", in increasing order, and no more than there are files |
| FileUpload.PreviewCountIsImageCount | script.js:138-159 | there are exactly as many previews as image files |
| FileUpload.AllImagesAllPreviewed | script.js:138-159 | a selection made only of images gets one preview per file, carrying each file's index |
| FileUpload.FileInput.OnChange | script.js:129-161 | the preview area is emptied; more than 5 files clears the input and leaves no previews; otherwise the input is kept and the previews are the image indices; never more than 5 previews |
| JsText.TrimStart | script.js:204-207 | removes exactly the leading whitespace: the result is a suffix, everything cut is whitespace, and the result does not start with whitespace |
| JsText.TrimEnd | script.js:204-207 | removes exactly the trailing whitespace: the result is a prefix, everything cut is whitespace, and the result does not end with whitespace |
| JsText.RemoveWhitespace | script.js:217 | the result holds no whitespace and is no longer than the input |
| JsText.TrimEmptyIff | script.js:209 | a trimmed value is empty iff the raw value is all whitespace |
| JsText.RemoveWhitespaceAfterTrim | script.js:205-217 | removing all whitespace after trimming gives the same text as removing it from the raw value |
| JsText.RemoveWhitespaceIdempotent | script.js:217 | removing whitespace twice is the same as once |
| PhonePattern.ClassesDisjoint | script.js:216 | the classes `+`, `(`, `)`, digit and `[-\s.]` share no character |
| PhonePattern.Run | script.js:216 | one item's greedy step takes the longest prefix inside the class, within the item's maximum |
| PhonePattern.GreedySound | script.js:216 | whatever the one-pass matcher accepts, the regular expression matches |
| PhonePattern.GreedyComplete | script.js:216 | whatever the regular expression matches, the one-pass matcher accepts, for a deterministic pattern |
| PhonePattern.GreedyAgrees | script.js:216 | on a deterministic pattern the one-pass matcher and the backtracking meaning agree on every text |
| PhonePattern.PhoneIsDeterministic | script.js:216 | no optional part of the phone pattern can be confused with what may follow it |
| PhonePattern.PhoneValidIffMatches | script.js:216-217 | the check accepts a text iff it matches, in order: optional `+`, optional `(`, 3 digits, optional `)`, optional separator, 3 digits, optional separator, 4 to 6 digits |
| PhonePattern.DigitBounds | script.js:216 | a text matched by a pattern has between the pattern's least and greatest digit totals |
| PhonePattern.AcceptedDigitCount | script.js:216 | every accepted number has 10 to 12 digits |
| PhonePattern.DigitsAccepted | script.js:216 | 10 to 12 bare digits are accepted alone, after `+`, and after an unclosed `(` |
| PhonePattern.DigitCountOutOfRangeRejected | script.js:216 | fewer than 10 or more than 12 digits are rejected |
| PhonePattern.LeadingSeparatorRejected | script.js:216 | a number starting with a separator is rejected |
| OrderForm.Decide | script.js:204-221 | blocked for a missing field iff trimmed name, trimmed number, untrimmed furniture type or trimmed description is empty; blocked for the number iff all fields are present and the stripped number fails the pattern; proceeds iff both checks pass |
| OrderForm.BlankFieldBlocks | script.js:204-213 | the missing-field block happens iff the name, number or description is all whitespace or the furniture type is empty |
| OrderForm.PhoneTextIgnoresTrim | script.js:205-217 | the number the pattern sees is the raw field with all whitespace removed |
| OrderForm.ProceedHasTenToTwelveDigits | script.js:216-226 | a submission that goes ahead carries a number of 10 to 12 digits |
| OrderForm.SpacedDigitsProceed | script.js:204-217 | a form with every field filled whose number is 10 to 12 digits, spaced in any way, goes ahead |
| OrderForm.OnSubmit | script.js:203-227 | the native submission is cancelled iff the decision is not Proceed; the button becomes disabled and shows the loading state only when it proceeds, and is otherwise unchanged |

## Left out

- Existence guards (`if (menuToggle && nav)`, `if (fileInput && filePreview)`, `if (customOrderForm)`): the model assumes the elements exist. Without them the handlers are simply never attached. The `if (navLink)` guard is modelled: a section without a link has `link == None`.
- The page's initial markup is not part of the script. `Menu.MobileMenu.constructor` assumes a menu that is closed at load.
- FileReader's asynchronous `onload`, the order in which previews are appended, and their markup: the model keeps only the indices of the files whose preview is requested. The `×` marker on a preview has no handler in the script, so nothing removes a preview.
- Drag-and-drop: the default-prevention, the dropzone styles, and re-dispatching dropped files into the input. These are event plumbing; the `change` handler they trigger is modelled.
- Alerts, console logging and the branding lines: these are side effects only. The decision that leads to each alert is modelled (`Decide`, `OnChange`'s `rejected`).
- The native form submission itself: the model records only whether the handler cancels it. The spinner markup is a single `loading` flag.
- Smooth anchor scrolling, the category-card click with its delayed filter activation, and the logo scroll-to-top: these depend on `getBoundingClientRect`, `scrollTo` and timers.
- Lazy image loading and the IntersectionObserver entrance animations: these depend on browser APIs and viewport geometry.
- The `gtag`/`fbq` analytics calls, the placeholder video alert and the service-worker stub: foreign calls or no logic.
- Scroll offsets are modelled as integers. A browser may report a fractional `pageYOffset`; the comparisons would be the same on reals.
- Strings are sequences of Unicode code points, while JavaScript strings are UTF-16 code units. No whitespace character or pattern character lies outside the Basic Multilingual Plane, so trimming, whitespace removal and the pattern behave the same.
