# Portfolio page controllers, modelled in Dafny

This project models the behaviour of the controllers in `script.js` of a one-page personal portfolio site:

- **Theme.** `ThemeManager` keeps one current theme and mirrors it in three places:
  - the persisted preference under the key `theme`;
  - the document's `data-theme` attribute;
  - the toggle button's icon.

  The toggle switches light to dark and anything else to light.
- **Navigation.** `NavigationManager` handles:
  - the mobile menu, which opens and closes together with the page's scroll lock;
  - the two scroll-driven flags: the navbar's `scrolled` class above 100 pixels and the back-to-top button above 500 pixels;
  - highlighting the nav link of the section in view. The last section in document order whose band `[offsetTop - 100, offsetTop - 100 + clientHeight)` holds the scroll offset wins. With none, no link whose href has a fragment is highlighted.
- **Typing.** `TypingAnimation` is a cursor over a fixed list of phrases. Each tick of `type()` types or deletes exactly one character:
  - the typing tick that completes a phrase waits `delay` and turns to deleting;
  - the deleting tick that empties the phrase waits `deleteSpeed` and moves to the next phrase, modulo the number of phrases.
- **Skills.** `SkillsManager`'s click handler makes one category the only active one and shows exactly the skill groups whose `data-group` equals that category's `data-category`.
- **Form.** `FormManager` covers:
  - the contact form's rules: JavaScript `trim`, and the e-mail pattern `^[^\s@]+@[^\s@]+\.[^\s@]+$` written out by hand and proved equal to a computed check;
  - the submit check, which checks the e-mail untrimmed, and the blur check, which checks every value trimmed;
  - the inline error slots;
  - the submit flow: validate, enter the busy state, hand off to the mail client, show one notification, reset only on success, leave the busy state;
  - the single notification slot.

Module layout:

| file | module | models |
|---|---|---|
| `wrappers.dfy` | `Wrappers` | `Option`, for attributes that may be null |
| `theme.dfy` | `Theme` | `ThemeManager` |
| `navigation.dfy` | `Navigation` | `NavigationManager` |
| `typing.dfy` | `Typing` | `TypingAnimation` |
| `skills.dfy` | `Skills` | the `SkillsManager` click handler |
| `form_validation.dfy` | `FormValidation` | `trim`, `isValidEmail`, the per-field rules |
| `form.dfy` | `Form` | `FormManager` |

Objects whose fields the script updates in place are classes. The DOM state they touch is a field of the class:
- the preference store is a `map`;
- the list of nav links, categories, groups and notifications are `seq`s;
- CSS classes are `bool`s;
- error texts are a `map` from field to text.

Reading the DOM and the browser's values becomes parameters:
- `pageYOffset` and the document's `scrollTop`;
- the section boxes;
- the stored preference;
- the form values;
- whether the hand-off to the mail client throws.

A ghost event log records the order of the submit flow's steps.

The highlight is not sticky. The code resets `current` to `''` on every scroll event (`script.js:96`), so in a gap between sections no link whose href has a fragment stays active. `Navigation.NothingCoveredNothingNamed` states this. Every link whose href is a single character, such as `#`, has the fragment `''`, which equals the reset `current`; in a gap all such links are highlighted.

## Model

| member | source | states |
|---|---|---|
| Theme.InitialTheme | script.js:14 | the start-up theme is the stored value whenever a non-empty one is stored, and light when nothing or the empty string is stored; it is never empty |
| Theme.ToggledIsKnown | script.js:32-35 | a toggle always lands on light or dark, and always changes a known theme |
| Theme.ToggleTwice | script.js:32-35 | two toggles restore light or dark; an unknown stored theme ends up dark after two toggles |
| Theme.ToggleParity | script.js:32-35 | starting from light, an even number of toggles gives light and an odd number gives dark |
| Theme.ThemeManager.constructor | script.js:13-19 | reads the stored preference (default light) and applies it everywhere; the store holds it under `theme` |
| Theme.ThemeManager.SetTheme | script.js:23-30 | the theme is applied to the document, the icon and the store; other stored keys are unchanged |
| Theme.ThemeManager.ToggleTheme | script.js:32-35 | the new theme is the toggle of the old one, applied and persisted |
| Navigation.LastCovering | script.js:98-104 | the index found is a section whose band holds the offset, and no later section's band does; -1 when none does |
| Navigation.Fragment | script.js:108 | `substring(1)` drops exactly the first character; the empty href gives '' |
| Navigation.ScanSections | script.js:96-104 | the forward scan ends with the id of the last covering section, or '' when no band holds the offset |
| Navigation.LaterSectionWins | script.js:98-104 | when bands overlap, the section later in the document decides the active id |
| Navigation.UncoveredSectionsIrrelevant | script.js:98-104 | adding a section whose band misses the offset, at either end, changes nothing |
| Navigation.PrependUncovered | script.js:98-104 | a leading section that does not cover the offset only shifts the index found |
| Navigation.NothingCoveredNothingNamed | script.js:96-111 | when no band holds the offset, no link whose href has a fragment is highlighted |
| Navigation.TwoSectionsExample | script.js:98-104 | two adjacent sections: offsets inside each select it, an offset past both selects none |
| Navigation.NavigationManager.constructor | script.js:40-61 | the menu starts closed and this controller holds no scroll lock; the scroll flags start off |
| Navigation.NavigationManager.ToggleMobileMenu | script.js:63-67 | both `active` classes flip, the scroll lock follows the menu, and the icon/menu/lock stay in sync |
| Navigation.NavigationManager.CloseMobileMenu | script.js:69-73 | the menu and icon are closed and the page scrolls again |
| Navigation.NavigationManager.HandleScroll | script.js:75-91 | with the offset from `pageYOffset`, or `scrollTop` when that is 0: navbar styled above 100, back-to-top shown above 500; the second implies the first |
| Navigation.NavigationManager.UpdateActiveLink | script.js:93-112 | afterwards exactly the links whose fragment equals the active section's id are active; hrefs and order unchanged |
| Typing.Prefix | script.js:172 | `substring(0, end)` is a prefix of the phrase, of length `end` when `end` is in range |
| Typing.Advance | script.js:168-190 | a tick keeps the phrase index in range; it stays or moves to the next phrase modulo the count |
| Typing.AdvanceKeepsSteady | script.js:168-190 | over non-empty phrases a tick keeps the cursor invariant; the subtitle shows exactly the first `charIndex` characters of the phrase |
| Typing.TypingTick | script.js:174-183 | a typing tick adds one character; it turns to deleting exactly when the phrase is complete, waiting `delay` then and `speed` otherwise |
| Typing.DeletingTick | script.js:171-187 | a deleting tick waits `deleteSpeed` and removes one character; at zero it starts the next phrase modulo the count |
| Typing.Run | script.js:189 | any number of ticks keeps the phrase index in range |
| Typing.RunAdd | script.js:189 | running `a + b` ticks is running `a` ticks and then `b` |
| Typing.RunThrough | script.js:189 | ticks through an intermediate cursor compose |
| Typing.TypingPhase | script.js:174-183 | typing from `j` characters completes the phrase in the phrase length minus `j` ticks and turns to deleting |
| Typing.DeletingPhase | script.js:171-187 | deleting from `j` characters reaches the start of the next phrase in `j` ticks |
| Typing.PhraseCycle | script.js:168-190 | a phrase is typed and deleted in twice its length in ticks, then the next phrase starts |
| Typing.PhrasesInOrder | script.js:168-190 | over non-empty phrases the animation visits them in order, and is back at the start after all of them |
| Typing.NextPhrase | script.js:168-190 | the ticks of phrase `k - 1` lead from its start to the start of phrase `k` |
| Typing.HiYoExample | script.js:168-190 | two two-letter phrases: the second phrase starts after 4 ticks and the first again after 8 |
| Typing.TypingAnimation.constructor | script.js:152-166 | the defaults are 100, 50 and 2000 ms; it starts at phrase 0 with nothing typed and runs the first tick |
| Typing.TypingAnimation.Type | script.js:168-190 | one tick updates the cursor and subtitle as `Advance` says, returns its wait, and keeps the invariant |
| Typing.SitePhrasesNonEmpty | script.js:692-697 | the four phrases of the page are non-empty, so the invariant applies to them |
| Skills.SkillsManager.constructor | script.js:199-202 | the handler works on the categories and groups of the page as found |
| Skills.SkillsManager.ClickCategory | script.js:203-219 | after a click the clicked category alone is active, so exactly one category is active; a group is shown iff its `data-group` equals the category's `data-category`; no attribute changes |
| Skills.OneActiveAfterClick | script.js:208-209 | the state a click leaves, only the clicked category active, has exactly one active category; `ClickCategory` uses it |
| FormValidation.LeadingSpaces | script.js:315 | the count of leading white space is at most the length |
| FormValidation.LeadingSpacesSpec | script.js:315 | the counted prefix is all white space and the next character is not |
| FormValidation.TrailingSpaces | script.js:315 | the count of trailing white space is at most the length |
| FormValidation.TrailingSpacesSpec | script.js:315 | the counted suffix is all white space and the character before it is not |
| FormValidation.Trim | script.js:315 | `trim` never lengthens a string |
| FormValidation.TrimSpec | script.js:315 | `trim` keeps a middle slice that starts and ends with a non-space; everything cut off is white space |
| FormValidation.TrimIsMiddle | script.js:315 | what `trim` keeps is one contiguous slice of the input, starting after the leading white space |
| FormValidation.TrimCutsSpace | script.js:315 | everything `trim` cuts off, at either end, is white space |
| FormValidation.TrimEnds | script.js:315 | a non-empty trimmed value starts and ends with a non-space character |
| FormValidation.TrimNoSpace | script.js:342 | a string without white space is its own trim |
| FormValidation.TrimIdempotent | script.js:342 | trimming twice is trimming once |
| FormValidation.FirstIndex | script.js:391 | the index of the first occurrence is at most the length |
| FormValidation.FirstIndexSpec | script.js:391 | no occurrence before the index found; the character there is the one searched for |
| FormValidation.IsValidEmail | script.js:390-393 | an accepted address contains no white space |
| FormValidation.IsValidEmailMatchesPattern | script.js:390-393 | the computed check accepts exactly the strings the regular expression matches |
| FormValidation.EmailCheckSound | script.js:390-393 | an accepted address splits into atom `@` atom `.` atom |
| FormValidation.DotIn | script.js:391 | a slice that contains `.` has it at some position inside the slice's bounds |
| FormValidation.SplitAtDot | script.js:391 | with no white space and a single `@`, an inner `.` after it splits the string as the pattern demands |
| FormValidation.EmailCheckComplete | script.js:390-393 | every string the pattern matches passes the computed check |
| FormValidation.AtomSlice | script.js:391 | a non-empty stretch without white space or `@` is one `[^\s@]+` |
| FormValidation.PatternParts | script.js:391 | a match contains no white space and no `@` except the one at the split |
| FormValidation.FormData.With | script.js:274 | updating a field's value changes that field only |
| FormValidation.Utf16Length | script.js:315 | JavaScript's `length` counts at least one and at most two code units per character |
| FormValidation.Utf16LengthOfBmp | script.js:315 | without characters beyond the Basic Multilingual Plane, `length` is the character count |
| FormValidation.EmojiNameLength | script.js:315 | a single emoji has `length` 2, so it passes the two-character minimum of the name |
| FormValidation.FailingFieldsExact | script.js:311-339 | a field is reported exactly when its own check fails |
| FormValidation.ValidIffNothingFails | script.js:311-339 | the form is valid exactly when no field is reported |
| FormValidation.FormValidRules | script.js:311-339 | valid iff trimmed name ≥ 2, the untrimmed e-mail matches the pattern, trimmed subject ≥ 3, trimmed message ≥ 10, lengths in UTF-16 code units |
| FormValidation.TextRulesAgree | script.js:315-369 | for name, subject and message the submit and blur checks agree |
| FormValidation.EmailSubmitImpliesBlur | script.js:321-353 | every address the submit check accepts, the blur check accepts too |
| FormValidation.EmailRulesDiffer | script.js:321-353 | an address with a leading space passes on blur and fails on submit |
| FormValidation.PaddedSampleTrims | script.js:342 | trimming one leading space of a sample address removes just that space |
| FormValidation.ShortDraftFailsEverywhere | script.js:311-339 | a draft with every value too short or malformed fails all four rules |
| FormValidation.GoodDraftPasses | script.js:311-339 | a well-formed draft passes all four rules |
| FormValidation.SampleTextsLongEnough | script.js:315-336 | the sample draft's texts are long enough after trimming, counted in code units |
| FormValidation.SampleAddressValid | script.js:390-393 | `a@b.com` is accepted |
| FormValidation.NoSpaceTrimmed | script.js:315 | a value that neither starts nor ends with white space keeps its length under `trim`, in characters and in code units |
| Form.SubmitError | script.js:311-339 | each field's submit message is non-empty |
| Form.BlurError | script.js:341-374 | each field's blur message is non-empty |
| Form.SubmitCheckFields | script.js:311-339 | the four checks, one per field, give each field its own verdict: exactly the fields in `FailingFields` get their submit message |
| Form.Compose | script.js:294-297 | the draft goes to the site owner's address with the form's subject |
| Form.Without | script.js:438-448 | removing a notification element keeps exactly the other ones, and never adds any |
| Form.FormManager.constructor | script.js:261-277 | the form starts empty with all error slots cleared and no notification |
| Form.FormManager.Input | script.js:274 | typing stores the value and clears that field's error without re-checking |
| Form.FormManager.ClearError | script.js:384-388 | the field's error text becomes '' |
| Form.FormManager.ShowFieldError | script.js:376-382 | the field's error text becomes the message |
| Form.FormManager.ValidateForm | script.js:311-339 | the verdict is the conjunction of the four rules; exactly the fields in `FailingFields` show their submit message, the others keep their text |
| Form.FormManager.CheckOnSubmit | script.js:315-318 | one rule: the verdict is that field's check, and only a failure writes the field's message |
| Form.FormManager.ValidateField | script.js:341-374 | the verdict is the blur check on the trimmed value; the field shows its message or is cleared |
| Form.FormManager.SetLoadingState | script.js:395-404 | the button's busy state is set to the argument |
| Form.FormManager.ShowNotification | script.js:406-435 | the first existing notification is removed and the new one appended, so one slot stays one |
| Form.FormManager.Dismiss | script.js:438-448 | close or auto-dismiss removes that notification if still present |
| Form.FormManager.HandleSubmit | script.js:279-309 | the fields in `FailingFields` of the draft show their message, the others keep theirs. Invalid: nothing else changes. Valid: busy on, one hand-off, one notification (error when the hand-off throws), reset only on success, busy off |
| Form.FormManager.Send | script.js:289-308 | busy on, one hand-off of the composed draft, then exactly one notification: the error text if the hand-off throws, else the success text followed by a reset; busy off last; the errors are untouched |
| Form.BusyBracketsHandOff | script.js:289-308 | a flow starts busy, hands off once, and ends idle |

## Left out

- DOM construction, event-listener registration and element lookup: the handlers are methods called directly.
- Timers: `setTimeout` in the typing animation is replaced by the wait `Type` returns. The notification's fade-in, fade-out and auto-dismiss timers become `Dismiss`.
- Smooth scrolling (`initSmoothScrolling`), the back-to-top and scroll-indicator clicks, and `scrollTo`: browser animation with no state of the script's own.
- `StatsCounter` (a constant floating-point step every 16 ms, floored for display), `AnimationManager`, `ParallaxManager`, `ProjectManager`, `LoadingManager`, visibility-change titles, the service worker, performance logging and the console greeting: these are not part of this model.
- `LoadingManager` locks page scrolling from start-up until one second after the `load` event (`script.js:625-630`, created first at `script.js:680`). The model's `NavigationManager` starts with its scroll lock off, so the modelled page starts unlocked while the real one starts locked.
- The Escape handler constructs a fresh `NavigationManager`, which registers its listeners again on every press, before closing the menu (`script.js:720-725`, listeners at `script.js:46`). Only the closing is modelled, as `CloseMobileMenu`; the growing set of duplicate listeners is not. Its visible effect is not modelled either: after `n` presses one hamburger click toggles the menu `n + 1` times, so after an odd number of presses a click leaves the menu as it was and it no longer opens.
- Exceptions from the preference store and missing DOM elements are not modelled. Nor is a missing `href` attribute on a nav link, which would throw in `substring`.
- Scroll offsets and section boxes are JavaScript numbers, which can be fractional; they are modelled as integers.
- The mailto URL is not modelled: neither its `encodeURIComponent` escaping nor the navigation to it. The hand-off is the `MailDraft` value and a `throws` flag saying whether it raised.
- The notification's markup, icon, title, styles and the once-only style injection (`addNotificationStyles`) are not modelled. Only the slot logic is kept: what is in the document and in what order.
- The border colours `showFieldError` and `clearError` set are not modelled; only the error text is.
- `validateField` for an input whose name is none of the four fields, which falls through the `switch` and clears its error, is not modelled: `Field` has only the four form fields.
- Navigation.Fragment: drops the first character as a code point, while `substring(1)` drops the first UTF-16 code unit. For an href starting with a character beyond the Basic Multilingual Plane, such as `"\u{1F600}a"`, the source keeps a lone low surrogate (`"\uDE00a"`, which matches no section id `"a"`), while the model gives `"a"`. The page's hrefs are `#id` anchors, where the two agree.
- Typing.Advance: counts a phrase's characters as code points, while `substring` and `length` count UTF-16 code units. A phrase with characters beyond the Basic Multilingual Plane therefore takes more ticks in the source and can show half a surrogate pair mid-way. The four phrases of the page are ASCII, where the two counts agree. The form's length rules do count code units (`FormValidation.Utf16Length`).
- `Typing.TypingAnimation.Type`: the invariant is proved only for non-empty phrases. With an empty phrase the source's `charIndex` keeps growing, and `Type` follows it without a bound.
- `Form.FormManager.HandleSubmit`: the `async` function never awaits, so it runs in one step. Re-entrant submits during the busy state are not modelled.
