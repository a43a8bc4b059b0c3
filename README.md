# Portfolio site: verified model of its sequential logic

This project models, in Dafny, the four pieces of the portfolio site that carry
exact rules rather than presentation:

- **The visibility latch** (`useIntersectionObserver`): the published
  `isIntersecting` flag and the `hasTriggered` ref, driven by abstract
  "intersecting / not intersecting" reports, under the `triggerOnce` option,
  with the subscribe / disconnect life cycle of the effect. Module `Visibility`:
  a value-level `Callback` and its fold `Run` carry the properties; the class
  `IntersectionHook` holds the state the hook mutates and its methods are
  proved against `Callback`.
- **The experience timeline** (`Experience`): the three record lists tagged and
  concatenated, the year key read by `getYear` (the largest of the
  non-overlapping four-digit runs found left to right, or 0), the stable
  newest-first sort, the left/right alternation and the `||` display
  fallbacks. Modules `YearKey`, `Timeline`, and `TimelineFixture` (the site's
  own records and their year keys).
- **The contact form** (`Contact`): the required-field rules, the email
  pattern `/^[A-Z0-9._%+-]+@[A-Z0-9.-]+\.[A-Z]{2,}$/i` as a predicate on
  strings, and the `isSubmitting` life cycle of `onSubmit`. Modules
  `EmailPattern` and `Contact` (class `ContactForm`).
- **The navigation** (`Navigation`): the scroll handler's `isScrolled` rule and
  its reversed scan for the active section, the resize handler, the menu
  button and nav links, and the effect that sets `document.body.style.overflow`.
  Module `Navigation` (class `NavigationState`).

Notes on the behaviour the model fixes:

- The DOM is an input. A scroll event brings `scrollY` and a map from the id of
  every element present in the page to the `top` of its bounding rectangle
  (both reals, as the browser's doubles); a resize brings `innerWidth`.
- The latch is a ref outside the effect, so it survives re-subscription.
  `Visibility.StaleLatchAfterOptionToggle` shows a consequence: if
  `triggerOnce` goes from true to false and back after the latch fired, one
  non-intersecting report in between leaves the target reported invisible for
  good. Every caller in the site passes a constant `triggerOnce: true`, so this
  path is not taken there; the invariant `hasTriggered ==> isIntersecting`
  holds for any fixed option (`Visibility.ConsistentAlongRun`).
- With `triggerOnce` the observer is not disconnected after the first
  intersecting report; its later callbacks return at once. The model
  keeps it connected.
- The sort key reads `year` when that property exists and `duration`
  otherwise, while the date shown is `year || duration`. The two differ only
  for a `year` that is present but empty (`Timeline.DateShownIsKeyText`); none
  of the site's records has one.
- `Array.prototype.sort` is stable, so the timeline is the unique stable
  newest-first ordering. It is modelled by an insertion sort, generic over the
  key, and specified by three properties: it is a permutation, it is
  non-increasing by key, and for each key it keeps the input order
  (`Timeline.SortIsStable`).
- react-hook-form's `required` rule fails only on the empty string, so a
  blank-only name or message passes; the pattern rule runs only on a
  non-empty email.

## Model

| member | source | states |
|---|---|---|
| Visibility.Callback | src/hooks/useIntersectionObserver.ts:23-31 | without `triggerOnce` the flag becomes the report and the latch is untouched; with it, a fired latch makes the report a no-op, an unfired latch fires exactly on an intersecting report, and a raised flag is never lowered |
| Visibility.Run | src/hooks/useIntersectionObserver.ts:22-32 | the state after a stream of reports delivered to one observer, `Callback` applied oldest first; its properties are the five lemmas below |
| Visibility.ConsistentAlongRun | src/hooks/useIntersectionObserver.ts:24-31 | from the initial state under a fixed option, a fired latch implies a raised flag, and tracking mode never fires the latch |
| Visibility.TrackingFollowsLastReport | src/hooks/useIntersectionObserver.ts:29-31 | with `triggerOnce` false, after any non-empty stream the flag equals the last report and the latch is unchanged |
| Visibility.SingleFireLatchesOnFirstIntersection | src/hooks/useIntersectionObserver.ts:15-28 | with `triggerOnce` true from the initial state, latch and flag are both set exactly when some report so far was intersecting, and both false otherwise |
| Visibility.FiredLatchIgnoresReports | src/hooks/useIntersectionObserver.ts:24 | once the latch has fired, any stream of reports leaves the state unchanged |
| Visibility.SingleFireIsMonotone | src/hooks/useIntersectionObserver.ts:26-31 | with `triggerOnce` true, a flag raised after a prefix of the reports is still raised after the whole stream |
| Visibility.StaleLatchAfterOptionToggle | src/hooks/useIntersectionObserver.ts:16-39 | the latch outlives a change of options; after true, false, true the flag can stay false for every later report |
| Visibility.IntersectionHook.constructor | src/hooks/useIntersectionObserver.ts:14-16 | before any report the flag and the latch are false and no observer is connected |
| Visibility.IntersectionHook.Subscribe | src/hooks/useIntersectionObserver.ts:18-36 | with no element no observer is connected; otherwise one is, capturing the current `triggerOnce`; flag and latch are untouched |
| Visibility.IntersectionHook.OnEntry | src/hooks/useIntersectionObserver.ts:22-32 | a connected observer applies `Callback` to the state; a disconnected one changes nothing |
| Visibility.IntersectionHook.Disconnect | src/hooks/useIntersectionObserver.ts:38 | the observer is disconnected and the state is kept |
| Visibility.IntersectionHook.OptionsChanged | src/hooks/useIntersectionObserver.ts:38-39 | an option change disconnects and re-subscribes, carrying flag and latch over |
| YearKey.Scan | src/components/sections/Experience.tsx:156 | every match found is a four-digit window at or after the start, and successive matches do not overlap |
| YearKey.ScanCoversEveryWindow | src/components/sections/Experience.tsx:156 | every four-digit window is a match or lies inside an earlier match |
| YearKey.Runs | src/components/sections/Experience.tsx:156-157 | the matched values lie in 0..9999 |
| YearKey.RunsEmptyIff | src/components/sections/Experience.tsx:156-157 | nothing is matched exactly when the string has no four consecutive digits |
| YearKey.MaxOrZero | src/components/sections/Experience.tsx:157 | the result is 0 for no match, otherwise one of the values and at least every value |
| YearKey.GetYear | src/components/sections/Experience.tsx:155-158 | the key lies in 0..9999, is 0 without a match, and is otherwise the largest matched value |
| YearKey.NoRunGivesZero | src/components/sections/Experience.tsx:155-158 | a string without four consecutive digits, the empty one among them, has key 0 |
| YearKey.YearOfRange | src/components/sections/Experience.tsx:155-158 | "2024 - 2026" holds the runs 2024 and 2026 and has key 2026 |
| YearKey.FiveDigitsHoldOneRun | src/components/sections/Experience.tsx:156 | "12345" holds the single run 1234 |
| Timeline.Tag | src/components/sections/Experience.tsx:150-152 | every tagged record carries the given source |
| Timeline.Combine | src/components/sections/Experience.tsx:149-152 | the combined list is education, then experience, then training, each record at its offset with its source tag |
| Timeline.YearText | src/components/sections/Experience.tsx:159-161 | the sort reads `year` when that property exists, else `duration` when it exists, else ""; compared with the date shown by `Timeline.DateShownIsKeyText` |
| Timeline.Key | src/components/sections/Experience.tsx:159-161 | an entry's year key is `getYear` of that text, within 0..9999 |
| Timeline.Insert | src/components/sections/Experience.tsx:153-162 | inserting adds exactly the one element |
| Timeline.InsertKeepsNewestFirst | src/components/sections/Experience.tsx:153-162 | inserting into a newest-first list keeps it newest first |
| Timeline.SortNewestFirst | src/components/sections/Experience.tsx:153-162 | the sorted list is a permutation of the input and non-increasing by key |
| Timeline.SortIsStable | src/components/sections/Experience.tsx:153-162 | for every key, the elements with that key keep their input order |
| Timeline.SortedCombinationSpec | src/components/sections/Experience.tsx:149-162 | for any key, the sorted combination is a permutation of the tagged lists, newest first, and each key's group is education's, then experience's, then training's records of that key |
| Timeline.SameKeyOrderedBySource | src/components/sections/Experience.tsx:149-162 | within one key, education entries precede experience entries, which precede training entries |
| Timeline.TimelineOf | src/components/sections/Experience.tsx:149-162 | the rendered timeline is newest first by year key; `Timeline.TimelineSpec` adds permutation and stability |
| Timeline.TimelineSpec | src/components/sections/Experience.tsx:149-162 | the rendered timeline, keyed by `getYear`, has all of the above properties |
| Timeline.SideOf | src/components/sections/Experience.tsx:48 | an even index is on the left, an odd one on the right; alternation is stated by `Timeline.SidesAlternate` |
| Timeline.SidesAlternate | src/components/sections/Experience.tsx:48 | the first item is on the left and consecutive items sit on opposite sides |
| Timeline.DateText | src/components/sections/Experience.tsx:80 | `year \|\| duration` as rendered; `Timeline.DisplayFallbacks` shows it is the first present, non-empty of the two |
| Timeline.TitleText | src/components/sections/Experience.tsx:86 | `degree \|\| role \|\| title` as rendered; `Timeline.DisplayFallbacks` shows it is the first present, non-empty of the three |
| Timeline.OrganisationText | src/components/sections/Experience.tsx:91 | `institution \|\| company` as rendered; `Timeline.DisplayFallbacks` shows it is the first present, non-empty of the two |
| Timeline.DisplayFallbacks | src/components/sections/Experience.tsx:79-92 | date, title and organisation each show the first present, non-empty field of `year, duration`, `degree, role, title` and `institution, company` |
| Timeline.DateShownIsKeyText | src/components/sections/Experience.tsx:159 | the date shown is the key's string unless `year` is present but empty, when the key reads "" and the display falls back to `duration` |
| TimelineFixture.FixtureKeys | src/data/index.ts:97-146 | the site's six records have keys 2026, 2024, 2021, 2019 (education), 2024 (experience) and 2025 (training) |
| EmailPattern.MatchesEmailPattern | src/components/sections/Contact.tsx:147 | the anchored pattern matches for some '@' position and escaped '.' position; characterised by `EmailPattern.PatternIsWellFormedEmail` and `EmailPattern.MatchIgnoresCase` |
| EmailPattern.PatternIsWellFormedEmail | src/components/sections/Contact.tsx:147 | the pattern matches exactly the strings with a single '@' after a non-empty run of local characters, only domain characters after it, and a last '.' with a character between it and the '@' and two or more letters, and nothing else, after it |
| EmailPattern.AcceptedEmailShape | src/components/sections/Contact.tsx:147 | an accepted address has exactly one '@', a non-empty local part of `A-Z a-z 0-9 . _ % + -`, a domain of `A-Z a-z 0-9 . -`, and ends in '.' and at least two letters with a character before that dot |
| EmailPattern.MatchIgnoresCase | src/components/sections/Contact.tsx:147 | two strings that differ only in the case of ASCII letters are both accepted or both rejected |
| EmailPattern.AcceptsMixedCaseAddress | src/components/sections/Contact.tsx:147 | "Jo.Doe+x@mail.Example.CO" is accepted |
| EmailPattern.RejectsOneLetterTopLevel | src/components/sections/Contact.tsx:147 | "jo@example.c" is rejected |
| EmailPattern.RejectsTwoAts | src/components/sections/Contact.tsx:147 | "jo@@example.com" is rejected |
| Contact.Validate | src/components/sections/Contact.tsx:131-173 | an empty name gets "Name is required", an empty email "Email is required", a non-empty email off the pattern "Invalid email address", an empty message "Message is required"; a field has no error otherwise |
| Contact.EmptyEmailDoesNotMatch | src/components/sections/Contact.tsx:144-149 | the empty email fails the pattern too, so the email has no error exactly when it matches |
| Contact.SubmittableForms | src/components/sections/Contact.tsx:127-173 | a form is submitted exactly when name and message are non-empty and the email matches; the subject never affects validation |
| Contact.ContactForm.constructor | src/components/sections/Contact.tsx:17-29 | the form starts empty, without errors and not submitting |
| Contact.ContactForm.Edit | src/components/sections/Contact.tsx:128-181 | typing changes only the values |
| Contact.ContactForm.SubmitDisabled | src/components/sections/Contact.tsx:186 | the submit button is disabled exactly while a submission is in flight; `Contact.ContactForm.PressSubmit` makes a press on it a no-op |
| Contact.ContactForm.PressSubmit | src/components/sections/Contact.tsx:31-32 | a press while submitting does nothing (the button is disabled); otherwise the form is validated and only an error-free form starts submitting |
| Contact.ContactForm.FinishSubmit | src/components/sections/Contact.tsx:35-65 | after the send `isSubmitting` is false on both paths; values and errors are reset only on success |
| Contact.SubmitOnce | src/components/sections/Contact.tsx:31-66 | a whole submission ends not submitting, starts exactly for a valid form, and clears the inputs exactly when a started send succeeds; it leaves the errors of the values submitted |
| Navigation.SectionId | src/components/Navigation.tsx:17 | `href.slice(1)`: the href without its first character; `Navigation.SectionIdOfAnchor` shows it undoes prefixing '#' |
| Navigation.SectionIdOfAnchor | src/components/Navigation.tsx:17 | removing the first character of "#" + id gives id back |
| Navigation.SectionIds | src/components/Navigation.tsx:17 | each section id is its nav href without the first character, in nav order |
| Navigation.NavSectionIds | src/data/index.ts:227-234 | the site's sections are home, about, skills, experience, projects, contact |
| Navigation.LastReached | src/components/Navigation.tsx:18-26 | the index found, if any, is of a reached section with no reached section after it; none is found only when no section is reached |
| Navigation.NextActive | src/components/Navigation.tsx:17-27 | the new active section is either the previous one or one of the section ids; `Navigation.NextActiveSpec` says which |
| Navigation.NextActiveSpec | src/components/Navigation.tsx:17-27 | the new active section is the last reached one in nav order, or the previous one when none is reached |
| Navigation.OverflowFor | src/components/Navigation.tsx:47-56 | "hidden" while the menu is open, "" otherwise; kept in step with the menu by the invariant `Valid` of every `NavigationState` method |
| Navigation.NavigationState.constructor | src/components/Navigation.tsx:7-9 | the active section starts as "home", the menu closed, not scrolled, overflow "" |
| Navigation.NavigationState.SyncBodyOverflow | src/components/Navigation.tsx:47-56 | the overflow is "hidden" exactly while the menu is open |
| Navigation.NavigationState.HandleScroll | src/components/Navigation.tsx:13-28 | `isScrolled` becomes `scrollY > 50` and the active section becomes `NextActive` of the previous one; after unmount nothing changes |
| Navigation.NavigationState.HandleResize | src/components/Navigation.tsx:36-40 | a width of 768 or more closes the menu; a smaller width leaves it as it was |
| Navigation.NavigationState.ToggleMenu | src/components/Navigation.tsx:113 | the menu button flips the menu and the overflow follows |
| Navigation.NavigationState.HandleNavClick | src/components/Navigation.tsx:58-64 | a nav click closes the menu and restores the overflow |
| Navigation.NavigationState.Unmount | src/components/Navigation.tsx:53-55 | unmounting removes the listeners and restores the overflow to "" |

## Left out

- Intersection geometry: `threshold`, `root` and `rootMargin` only decide when the browser reports; each report is an abstract boolean, the `isIntersecting` of its first entry.
- React scheduling: state updates are applied at once, effects run right after the change that triggers them, and the element ref is given to `Subscribe` as a boolean.
- Properties that exist with the value `undefined` are not distinguished from absent ones.
- The timeline's rendering: icons, colours, animation delays, and the grade, description, skills and "Current" badge shown when present.
- The rendered order of the site's own records (degree of 2026, training of 2025, degree of 2024, internship of 2024, then 2021 and 2019) follows from `Timeline.TimelineSpec` and `TimelineFixture.FixtureKeys` but is not proved as one equation.
- In the contact form: the toasts, the clipboard copy and its timed `copiedEmail` reset, the simulated 1500 ms delay and the EmailJS call. Whether the send fails is a parameter of `FinishSubmit`.
- react-hook-form beyond the `required` and `pattern` rules: re-validation on change after a submit, focus handling and its own submit state. The browser's own check of `type="email"` inputs is not modelled either.
- In the navigation: `scrollIntoView`, smooth scrolling, and the styling that depends on the active section and `isScrolled`.
- The 3D node graph and particle field (src/components/3d/NeuralNetwork.tsx, src/components/3d/ParticleField.tsx), the loading screen, the animated counters, smooth scrolling and mouse tracking hooks: floating point, randomness, timers and animation frames with no exact rule to state.
- The presentation-only sections (hero, about, skills, projects, footer, back-to-top button, the app shell) and the rest of the static content.
