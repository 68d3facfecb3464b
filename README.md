# A verified model of a portfolio site's page logic

The repository is a React portfolio site. Most of it is markup. This project models the parts that hold state or decide something, and proves what they promise:

- **Contact form** (`ContactForm`, from `src/hooks/useContactForm.ts`). The hook holds the form fields, the per-field errors, the submitting flag and a single notification slot. It provides:
  - the validator, with trimmed-blank checks and the unanchored `\S+@\S+\.\S+` e-mail test;
  - per-field error clearing when a field is edited;
  - submission;
  - the notification, which can be shown, hidden by its 5000 ms timer, or closed.

  Timers and the simulated request are explicit events.
- **Store** (`Store`, from `src/store/useStore.ts`). The dark-mode flag, persisted under `theme`, and the mobile-menu flag.
- **Keyboard navigation** (`KeyboardNavigation`, from `src/hooks/useKeyboardNavigation.ts`):
  - the per-keydown dispatch to a route, a document event, a previous/next section scroll, or nothing;
  - the clamped adjacent-section index;
  - the help table of shortcuts.
- **Layout** (`Layout`, from `src/components/Layout.tsx`):
  - the active-link rule;
  - the `dark` class on the document element;
  - the menu button and the mobile links, which all call `toggleMenu`;
  - the first-visit welcome notice.
- **Highlighting on the About page** (`Highlight`, from `src/pages/About.tsx`):
  - the escaped alternation pattern built from the bio's terms;
  - `String.prototype.split` with a capturing pattern, after the algorithm of section 22.2.6.14 of ECMA-262;
  - the emphasis of pieces equal to a term;
  - the achievement lines with their fixed four-token pattern.
- **Document head** (`Meta`, from `src/components/Meta.tsx`):
  - the full title;
  - the upsert loop over the eleven meta entries, where the attribute kind follows the `og:` prefix;
  - the cleanup loop that removes the nine social tags.
- **First visit** (`FirstVisit`, from `src/hooks/useFirstVisit.ts`). The one-shot `has_visited` flag, which schedules one `toggle-keyboard-help` event 2000 ms later.

Two shared modules support these:

- `Text` holds JavaScript whitespace, `trim`, `startsWith`, `includes` and `toLowerCase`.
- `Browser` holds the `localStorage` and router-location objects. They are classes, because several components share and update them.

Where the source updates state in place, the model is a class whose methods are tied, by their postconditions, to pure transition functions. The properties that span several calls are lemmas about those functions. This covers the store, the contact-form hook, the head, the first-visit hook, the document root and the keyboard listener.

## Model

| member | source | states |
|---|---|---|
| Text.Trim | src/hooks/useContactForm.ts:38 | `trim()` is empty exactly when the string is all JavaScript whitespace. Otherwise it starts and ends with non-whitespace and is the middle of the input, with only whitespace cut off on either side. |
| Text.ToLower | src/hooks/useKeyboardNavigation.ts:19 | `toLowerCase()` keeps the length and maps each character independently. |
| Text.LowerChar | src/hooks/useKeyboardNavigation.ts:37 | A-Z map to a-z. Only A-Z and the Kelvin sign change. Only a-z, A-Z and the Kelvin sign end up as a-z. |
| Text.ToLowerIdempotent | src/hooks/useKeyboardNavigation.ts:37 | Lower-casing twice equals lower-casing once. |
| Browser.TruthyItem | src/store/useStore.ts:18-19 | A stored item is truthy exactly when it is present and non-empty, and it then is the stored value. |
| Store.InitialTheme | src/store/useStore.ts:17-24 | A non-empty stored `theme` gives dark iff it is "dark". An absent or empty one falls back to the system preference. |
| Store.Initial | src/store/useStore.ts:26-40 | The store starts with the initial theme, the menu closed and the storage unchanged. |
| Store.ThemeSet | src/store/useStore.ts:29-32 | `setDarkMode(b)` sets the flag to b and stores "dark"/"light" to match. It keeps the menu flag and every other storage key. |
| Store.ThemeToggled | src/store/useStore.ts:33-37 | `toggleTheme` negates the flag and persists the new value. It keeps the menu and every other storage key. |
| Store.MenuToggled | src/store/useStore.ts:41 | `toggleMenu` negates the menu flag. It changes neither the theme nor the storage, so persistence is unaffected. |
| Store.ReloadRestoresTheme | src/store/useStore.ts:17-24 | When storage agrees with memory, the initial theme of a reload is the theme in memory, whatever the system preference. |
| Store.SetDarkModeIdempotent | src/store/useStore.ts:29-32 | `setDarkMode(b)` twice equals once. |
| Store.ToggleIsSetOpposite | src/store/useStore.ts:33-37 | `toggleTheme` is `setDarkMode` of the opposite value. |
| Store.ToggleThemeTwice | src/store/useStore.ts:33-37 | Two toggles restore the theme. They restore the whole state when it was persisted. |
| Store.ToggleMenuTwice | src/store/useStore.ts:41 | Two menu toggles restore the state. |
| Store.AppStore.constructor | src/store/useStore.ts:26-41 | The store object starts in the initial state over the given storage. |
| Store.AppStore.SetDarkMode | src/store/useStore.ts:29-32 | Performs `ThemeSet` on the object and its storage. |
| Store.AppStore.ToggleTheme | src/store/useStore.ts:33-37 | Performs `ThemeToggled` on the object and its storage. |
| Store.AppStore.ToggleMenu | src/store/useStore.ts:41 | Performs `MenuToggled`. The storage is not written. |
| ContactForm.FormData.With | src/hooks/useContactForm.ts:94-97 | Setting a field changes that field only. |
| ContactForm.Errors.Cleared | src/hooks/useContactForm.ts:100-103 | Clearing an error removes that error only. |
| ContactForm.EmailShapeIsRegexTest | src/hooks/useContactForm.ts:44 | The executable decision procedure holds iff some substring matches `\S+@\S+\.\S+`. Both directions are proved. |
| ContactForm.EmailTestImpliesNotBlank | src/hooks/useContactForm.ts:42-46 | A string that passes the e-mail test is not blank, so "required" and "invalid" never both apply. |
| ContactForm.UnanchoredEmailExample | src/hooks/useContactForm.ts:44 | The test is unanchored: "mail me: a@b.co thanks" passes, "a@b.com" passes and "not-an-email" fails. |
| ContactForm.Validate | src/hooks/useContactForm.ts:35-51 | Name and message get "required" iff blank after trimming. The e-mail gets "required" if blank; otherwise "invalid" iff no substring matches the pattern; otherwise nothing. |
| ContactForm.ValidIff | src/hooks/useContactForm.ts:53 | There are no errors iff name and message are non-blank and the e-mail passes the test. |
| ContactForm.ValidationExamples | src/hooks/useContactForm.ts:35-53 | On concrete forms: an empty name gives exactly the name error, a bad address gives only the e-mail error, and a complete form gives none. |
| ContactForm.ContactFormHook.constructor | src/hooks/useContactForm.ts:22-33 | Fields empty, no errors, not submitting. The notification is invisible, with kind success and an empty message. Nothing is pending. |
| ContactForm.ContactFormHook.ValidateForm | src/hooks/useContactForm.ts:35-54 | The errors built step by step equal `Validate` of the form, and the result is true iff there are none. |
| ContactForm.ContactFormHook.ShowNotification | src/hooks/useContactForm.ts:56-67 | The single slot is overwritten with the visible notification, and one more hide timer is pending. |
| ContactForm.ContactFormHook.HideTimerFires | src/hooks/useContactForm.ts:64-66 | A firing hide timer only hides the slot, keeping its message and kind. |
| ContactForm.ContactFormHook.CloseNotification | src/hooks/useContactForm.ts:107-109 | Closing only hides the slot. |
| ContactForm.ContactFormHook.HandleChange | src/hooks/useContactForm.ts:90-105 | Sets only the edited field. Clears only that field's error, and only if it had one. Leaves every other field and error unchanged. |
| ContactForm.ContactFormHook.HandleSubmit | src/hooks/useContactForm.ts:69-79 | Stores the validation errors. On failure it stops with the submitting flag, the fields and the notification untouched. On success it sets the submitting flag and starts one request. |
| ContactForm.ContactFormHook.RequestSettles | src/hooks/useContactForm.ts:79-87 | A successful request resets all fields and shows "Message sent successfully!" as a visible success. A failed one shows the error message and keeps the fields. Either way submitting ends. |
| ContactForm.StaleTimerHidesLaterNotification | src/hooks/useContactForm.ts:56-67 | Timers are never cancelled, so the first notification's timer hides the second notification. |
| KeyboardNavigation.KeyAction | src/hooks/useKeyboardNavigation.ts:9-58 | The handler as written: a text-field target gives no action, a section scroll needs Ctrl or Cmd, and a route or event comes only from an unmodified one-character key. Its full meaning is `DispatchIsTableLookup`. |
| KeyboardNavigation.DispatchIsTableLookup | src/hooks/useKeyboardNavigation.ts:9-58 | Outside text fields, a keydown does what the binding table says for its modifier state and lower-cased key. The table is h, a, p, c, k, t unmodified and arrowup/arrowdown with Ctrl or Cmd. Any other key does nothing. |
| KeyboardNavigation.TextFieldSuppressesAll | src/hooks/useKeyboardNavigation.ts:11-15 | A keydown in an INPUT or TEXTAREA does nothing. |
| KeyboardNavigation.CaseInsensitive | src/hooks/useKeyboardNavigation.ts:19 | The action of a key equals the action of its lower-cased form. |
| KeyboardNavigation.ChordIgnoresLetters | src/hooks/useKeyboardNavigation.ts:18-34 | With Ctrl or Cmd held, no one-character key acts, including h/a/p/c/k/t. |
| KeyboardNavigation.ChordRowsAreBound | src/hooks/useKeyboardNavigation.ts:17-28 | The two chord rows of the help table (lines 95-96) are the Ctrl/Cmd bindings of the arrow keys in the same positions: with Ctrl or Cmd held, ArrowUp scrolls to the previous section and ArrowDown to the next. |
| KeyboardNavigation.HelpRowsAreBound | src/hooks/useKeyboardNavigation.ts:88-94 | The key of each letter row of `shortcuts`, typed in either case, leads to the action of the binding in the same position: the four routes, the help event and the theme event. |
| KeyboardNavigation.OnlyHelpLettersAct | src/hooks/useKeyboardNavigation.ts:37-58 | An unmodified key acts only if it is, up to case, one of the six letters of the help table. |
| KeyboardNavigation.AdjacentIndex | src/hooks/useKeyboardNavigation.ts:72-75 | The clamped target lies in [0, n). It differs from the current index exactly when a next/prev step fits, and is then that step. |
| KeyboardNavigation.ScrollTarget | src/hooks/useKeyboardNavigation.ts:61-80 | A scroll happens iff there is a current section and the step fits, and it goes to the neighbouring section: the next one for next, the previous one for prev. Nothing happens without sections, without a current section, on next at the last section or on prev at the first. |
| KeyboardNavigation.NextThenPrev | src/hooks/useKeyboardNavigation.ts:72-75 | A next scroll followed by a prev scroll returns to the starting section. |
| KeyboardNavigation.KeyboardNavigator.HandleKeyPress | src/hooks/useKeyboardNavigation.ts:9-80 | The listener navigates, dispatches or scrolls exactly as the action says, and changes nothing else. It prevents the default iff the action is a section chord. |
| Layout.IsActiveSection | src/components/Layout.tsx:73-78 | Home is active only on the exact path "/" with the home section in view. Any other path is active iff the pathname begins with it or its section id is in view. |
| Layout.ActiveNav | src/components/Layout.tsx:128-136 | Each of the four navigation items is highlighted by `isActiveSection` of its path, in the order of `navItems`. |
| Layout.HomeNeedsExactPath | src/components/Layout.tsx:74-76 | Home is active iff the pathname is exactly "/" and the home section is in view. It is inactive on "/about". |
| Layout.HomeHighlightedAlone | src/components/Layout.tsx:73-78 | When home is highlighted, no other item is. |
| Layout.RouteHighlightsItsItem | src/components/Layout.tsx:73-78 | On each route's own pathname, with the home section in view for "/" and no section in view otherwise, exactly that route's navigation item is highlighted. |
| Layout.PrefixHighlight | src/components/Layout.tsx:77 | A non-home item is active on any pathname that merely begins with its path, since the test is not segment-aware. |
| Layout.DocumentRoot.ApplyDarkClass | src/components/Layout.tsx:26-32 | `dark` is in the class list iff dark mode is on. Other classes are untouched. |
| Layout.ClickMenuButton | src/components/Layout.tsx:163 | The menu button performs `toggleMenu`. |
| Layout.FollowMobileLink | src/components/Layout.tsx:206-224 | Following a link of the rendered (open) mobile menu closes it and navigates. Theme and storage are unchanged. |
| Layout.WelcomeNotice | src/components/Layout.tsx:108-115 | The welcome notice is shown iff this is the first visit. |
| Layout.WelcomeOnlyOnce | src/components/Layout.tsx:108-115 | The notice appears on a mount over storage without the visited key, and never on the mount after it. |
| Highlight.EscapeChar | src/pages/About.tsx:160 | Exactly the regular-expression syntax characters (dot, star, plus, question mark, caret, dollar, braces, parentheses, vertical bar, brackets, backslash) get a backslash. |
| Highlight.Escape | src/pages/About.tsx:160 | Escaping never shortens a term, and keeps its length exactly when the term holds no special character. |
| Highlight.EscapeReadsLiterally | src/pages/About.tsx:160 | An escaped term reads back as the pattern of its literal characters. |
| Highlight.LiteralMatchesOccurrence | src/pages/About.tsx:157-164 | A literal pattern matches at q iff the term occurs at q. |
| Highlight.EscapedMatchesExactly | src/pages/About.tsx:160 | An escaped term matches at q iff the term occurs there, and its match has the term's length. |
| Highlight.UnescapedDotMatchesAnything | src/pages/About.tsx:160 | Without escaping, "4.5" would match "4x5"; escaped, it does not. |
| Highlight.EscapeAll | src/pages/About.tsx:159-160 | Every term is escaped, in order. |
| Highlight.EscapedHasNoSeparator | src/pages/About.tsx:160-161 | An escaped term contributes no unescaped vertical bar, so it never splits an alternative. |
| Highlight.JoinReadsBack | src/pages/About.tsx:159-161 | Splitting the joined pattern at its unescaped vertical bars gives back the escaped terms. |
| Highlight.PatternSource | src/pages/About.tsx:157-164 | The source is one group whose alternatives read back as exactly the escaped terms, in list order. |
| Highlight.FirstAlternative | src/pages/About.tsx:157-164 | At each position the alternatives are tried in order. The one taken is the first that matches, and none matches when none is taken. |
| Highlight.MatchEnd | src/pages/About.tsx:166 | A match ends within the text. |
| Highlight.SplitFrom | src/pages/About.tsx:166 | The split loop from a state. It always yields an odd number of pieces: one more text piece than captures. |
| Highlight.Split | src/pages/About.tsx:166 | `split` of a non-empty text yields an odd number of pieces. What the pieces are for the page's terms is stated by `SplitConcat` and `SplitShape`: they reassemble the text, no term occurs in a gap, each capture is the first listed term occurring where it starts, and every occurrence lies in a capture. |
| Highlight.SplitFromConcat | src/pages/About.tsx:166 | From any split state, the pieces concatenate to the rest of the text. |
| Highlight.SplitConcat | src/pages/About.tsx:157-166 | The pieces of `split` with the capturing pattern concatenate back to the input. |
| Highlight.GapIsNoTerm | src/pages/About.tsx:166-167 | A gap between matches is never equal to a term. |
| Highlight.MatchIsTerm | src/pages/About.tsx:166 | A captured piece is the term of the alternative that matched. |
| Highlight.SplitFromShape | src/pages/About.tsx:166-174 | From any split state, the pieces alternate: gap, term, gap, and so on, and a gap is never equal to a term. |
| Highlight.NoneMeansNoTerm | src/pages/About.tsx:157-166 | Where no alternative matches, no term occurs. |
| Highlight.TakenIsEarliest | src/pages/About.tsx:151-166 | The alternative taken at a position is the first listed term occurring there. |
| Highlight.GapHoldsNoTerm | src/pages/About.tsx:166 | No term occurs at any position the split scanned without a match. |
| Highlight.LastGapFound | src/pages/About.tsx:166 | The final piece, scanned without a match, holds no term occurrence. |
| Highlight.ConsGaps | src/pages/About.tsx:166 | Adding a gap and a capture in front keeps every gap free of term occurrences. |
| Highlight.ConsCaptures | src/pages/About.tsx:151-166 | Adding a gap and a capture in front keeps every capture the first listed term at its start. |
| Highlight.ConsCovered | src/pages/About.tsx:166 | Adding a gap and a capture in front keeps every term occurrence inside a capture. |
| Highlight.SplitFromLeftmost | src/pages/About.tsx:151-166 | From any split state: no term occurs at any position of a gap, each capture is the first listed term occurring where it starts, and every position at which a term occurs lies inside a capture. |
| Highlight.SplitShape | src/pages/About.tsx:151-174 | Pieces at odd positions are exactly the pieces equal to a term. No term occurs anywhere in a gap, each capture is the first listed term occurring where it starts, and every occurrence of a term lies inside a capture. A text holding a term therefore never splits into itself alone. |
| Highlight.FirstListedTermWins | src/pages/About.tsx:151-164 | The earliest-listed term occurring at a position is the one taken. |
| Highlight.ShadowedTermNeverTaken | src/pages/About.tsx:151-164 | A term listed after one of its own prefixes is never taken. |
| Highlight.Emphasise | src/pages/About.tsx:166-174 | Every piece keeps its text, and is emphasised iff it is one of the terms. |
| Highlight.TextOfEmphasised | src/pages/About.tsx:166-174 | Emphasis does not change the text. |
| Highlight.EmphasiseOffsets | src/pages/About.tsx:166-174 | Each piece starts at the same place in the rendering as in the split. |
| Highlight.PlainFromGaps | src/pages/About.tsx:166-174 | No term occurs in a plain piece. |
| Highlight.EmphasisFromCaptures | src/pages/About.tsx:166-174 | Each bold piece is the first listed term at its start. |
| Highlight.EmphasisFromCovered | src/pages/About.tsx:166-174 | Every term occurrence lies in a bold piece. |
| Highlight.HighlightIsFaithful | src/pages/About.tsx:147-176 | The rendered text equals the input, and the emphasised pieces are exactly those at odd positions. No term occurs anywhere in a plain piece, each bold piece is the first listed term occurring where it starts, and every occurrence of a term lies in a bold piece. |
| Highlight.TermPresentIsEmphasised | src/pages/About.tsx:156-174 | A text in which some term occurs gets a bold piece: the converse of `NoTermSplitsWhole`. |
| Highlight.LeadingPieces | src/pages/About.tsx:166-174 | Pieces highlighted leftmost-first over a text that starts with the first term open with an empty plain piece and that term in bold. |
| Highlight.LeadingTermEmphasised | src/pages/About.tsx:151-174 | A text starting with the first listed term renders as an empty plain piece and then that term in bold. |
| Highlight.RenderBioIsFaithful | src/pages/About.tsx:148-175 | The bio renders as written, with emphasis exactly on the term pieces. Every occurrence of a bio term is bold, leftmost-first, and none is left in plain text. |
| Highlight.BioOpensWithYears | src/pages/About.tsx:148-175 | The rendered bio starts with an empty plain piece and "4.5 years" in bold. |
| Highlight.BioJavaScriptWins | src/pages/About.tsx:151-154 | On "JavaScript", "JavaScript" is taken. |
| Highlight.BioJavaMatchesThere | src/pages/About.tsx:151-154 | "Java" also matches there, but it is listed later. |
| Highlight.BioReactJsNeverWhole | src/pages/About.tsx:151-154 | "React.js" is never taken whole, because "React" is listed first. |
| Highlight.EscapeKeepsPlainText | src/pages/About.tsx:263 | Escaping leaves a text without special characters unchanged. |
| Highlight.AchievementPatternIsEscaped | src/pages/About.tsx:263 | The alternatives of the fixed achievement pattern are the four tokens escaped (only the dollar sign gains a backslash). |
| Highlight.RenderAchievement | src/pages/About.tsx:261-272 | An achievement as rendered reads as the achievement text, whichever branch of the `includes` guard is taken. |
| Highlight.NoMatchSplitsWhole | src/pages/About.tsx:263 | Without a match in the rest, the split yields the rest as one piece. |
| Highlight.NoTermSplitsWhole | src/pages/About.tsx:261-272 | A text containing none of the terms splits into itself alone. |
| Highlight.AchievementRendering | src/pages/About.tsx:261-272 | The `includes` guard does not change the outcome. Every achievement reads as written, exactly the token pieces, at odd positions, are emphasised, and every occurrence of a token lies in a bold piece that is the first listed token at its start. |
| Meta.FullTitle | src/components/Meta.tsx:20 | The title followed by the fixed suffix "Developer Portfolio" after a separator. |
| Meta.AboutTitleRepeatsSuffix | src/pages/About.tsx:124-127 | The About page passes a title that already ends in the suffix, so the suffix appears twice. |
| Meta.OnlyAppend | src/components/Meta.tsx:42-59 | The tags of one key in a concatenation are the tags of that key in each part. |
| Meta.Find | src/components/Meta.tsx:44 | The selector finds the first tag with the key, and finds nothing when there is none. |
| Meta.FoundIsFirst | src/components/Meta.tsx:44 | The found tag heads the tags of its key. |
| Meta.Lookup | src/components/Meta.tsx:44 | The content seen for a key is that of the first tag with the key. |
| Meta.NewTag | src/components/Meta.tsx:51-57 | A new tag uses `property` iff the key starts with "og:", and `name` otherwise. |
| Meta.Upsert | src/components/Meta.tsx:43-58 | For one entry: an existing tag's content is replaced without a duplicate, otherwise exactly one tag is appended. No other key's tags change, and the key then reads as the entry's content. |
| Meta.UpdateFirst | src/components/Meta.tsx:45-47 | Updating the found tag changes only the first tag of its key. |
| Meta.UpsertHeld | src/components/Meta.tsx:42-59 | Writing the content a key already shows changes nothing. |
| Meta.ApplyEntries | src/components/Meta.tsx:42-59 | The upsert of each entry in order. No tag is removed, and each entry appends at most one tag. |
| Meta.ApplyEffect | src/components/Meta.tsx:42-59 | After the loop, a key's tags are the old ones when no entry names it. Otherwise the first of the old ones takes the last content written, or, when there were none, one new tag holds it. |
| Meta.AppliedLookup | src/components/Meta.tsx:42-59 | After the loop, a written key reads as the last content written for it. |
| Meta.ContentForDistinct | src/components/Meta.tsx:28-40 | With distinct keys, the content for an entry's key is that entry's content. |
| Meta.EntryHeld | src/components/Meta.tsx:42-59 | After the loop over distinct entries, every entry's key reads as its content. |
| Meta.ApplyIsIdempotent | src/components/Meta.tsx:42-59 | Running the effect twice with the same entries leaves the same head as once. |
| Meta.ReapplyPrefix | src/components/Meta.tsx:42-59 | Re-writing entries the head already shows leaves it unchanged. |
| Meta.MetaEntries | src/components/Meta.tsx:28-40 | The `metaTags` table has eleven entries with distinct keys, so each key is written once. |
| Meta.DefaultsDescribeTheSite | src/components/Meta.tsx:12-17 | Without properties the effect writes the titles "Portfolio" with the suffix, the default description, the default image under the origin and the type "website". |
| Meta.EffectContents | src/components/Meta.tsx:28-40 | After the effect: the titles are the full title and the descriptions the description; both images are origin + image; the URL is origin + pathname; the type is the given one; the card is "summary_large_image"; the theme colour is "#0f172a" when dark and "#f8fafc" when light. |
| Meta.FreshHead | src/components/Meta.tsx:50-58 | On a head without meta tags, each key gets exactly one new tag, with the attribute its prefix asks for. Other keys get none. |
| Meta.RemoveFirst | src/components/Meta.tsx:77-80 | Removing a key drops only the first tag of that key, if any. |
| Meta.RemoveKeys | src/components/Meta.tsx:76-81 | The removal of each key in order. No tag is added, and each key removes at most one tag. |
| Meta.RemoveEffect | src/components/Meta.tsx:76-81 | For distinct keys, the cleanup drops exactly the first tag of each listed key and nothing of other keys. |
| Meta.RemovedKeysDistinct | src/components/Meta.tsx:64-74 | The nine keys to remove are distinct. |
| Meta.CleanupKeepsOthers | src/components/Meta.tsx:62-82 | Keys not listed keep all their tags. |
| Meta.CleanupKeepsContent | src/components/Meta.tsx:62-82 | Keys not listed keep their content. |
| Meta.CleanupRemovesSocial | src/components/Meta.tsx:62-82 | Each og:/twitter: key loses its first tag. |
| Meta.RemovedKeysAreWritten | src/components/Meta.tsx:28-38 | The nine removed keys are, in order, the nine entries right after "description". That is every entry except "description" and "theme-color". |
| Meta.UnmountRemovesSocialTags | src/components/Meta.tsx:62-82 | Mounting on a head without social tags and then unmounting leaves no social tag. |
| Meta.UnmountKeepsDescription | src/components/Meta.tsx:62-82 | Unmounting keeps the description the effect wrote. |
| Meta.UnmountKeepsThemeColor | src/components/Meta.tsx:62-82 | Unmounting keeps the theme colour the effect wrote. |
| Meta.Head.constructor | src/components/Meta.tsx:44 | The document head the effect queries, with the given title and tags. |
| Meta.Head.ApplyMeta | src/components/Meta.tsx:23-59 | The title becomes the full title, and the tags become the upsert of the eleven entries in order. |
| Meta.Head.WriteEntries | src/components/Meta.tsx:42-59 | The loop leaves the head as the upsert of every entry, in order. |
| Meta.Head.Cleanup | src/components/Meta.tsx:62-82 | The cleanup removes the first tag of each of the nine keys, in order: the head becomes `RemoveKeys` of the nine keys. |
| Meta.Head.RemoveEach | src/components/Meta.tsx:76-81 | The loop over the keys: the head becomes `RemoveKeys` of the old head and the keys, removing the first tag of each key in order. |
| FirstVisit.MountEffect | src/hooks/useFirstVisit.ts:6-17 | It is a first visit iff `has_visited` is absent or empty. A first visit stores "true" and schedules exactly one help event after 2000 ms. Otherwise storage is untouched and nothing is scheduled. Other keys never change. |
| FirstVisit.SecondMountIsNotFirst | src/hooks/useFirstVisit.ts:6-17 | A second mount reports no first visit, writes nothing and schedules nothing. Over two mounts the event is scheduled at most once. |
| FirstVisit.FirstVisitHook.constructor | src/hooks/useFirstVisit.ts:4 | The flag is false before the effect runs. |
| FirstVisit.FirstVisitHook.RunMountEffect | src/hooks/useFirstVisit.ts:6-17 | The effect, run once per mount, performs `MountEffect` on the flag, the storage and the timers. |
| FirstVisit.TwoMounts | src/hooks/useFirstVisit.ts:6-17 | Over fresh storage, the first mount is a first visit with one scheduled event. The second is not, and schedules none. |

## Left out

- The current-section search (`getBoundingClientRect` against a third of the viewport height) is not modelled. The index of the current section, or its absence, is an input to `ScrollTarget` and `HandleKeyPress`. The active section of the navigation is also an input; it is computed by `src/hooks/useActiveSection.ts`, which is not part of this model.
- `toLowerCase` is modelled on A-Z and the Kelvin sign only. Full Unicode case mapping is not modelled. No other character can lower-case to a bound letter, so the dispatch is unaffected.
- KeyboardNavigation.HelpRowsAreBound: proves that each help row's key leads to its binding's action, not that the described effect happens on the page. Two effects differ from the help text. (1) T only dispatches 'toggle-theme', and no listener for that event exists in the code, so T does not toggle the theme. (2) The hook is mounted twice: in `src/components/Layout.tsx` (line 23) and in `src/components/KeyboardShortcuts.tsx` (line 9, rendered at `src/components/Layout.tsx:281`). Every keydown is therefore handled by two listeners, so K dispatches 'toggle-keyboard-help' twice, and the dialog's toggle (`src/components/KeyboardShortcuts.tsx:12-13`) flips visibility twice and ends where it began. The model covers one listener and records events without their listeners.
- React rendering, the batching of state updates, the effect dependency lists and listener registration are not modelled. Each hook operation is one atomic method.
- `localStorage` is a string map. Quota errors, disabled storage and other tabs are not modelled.
- Highlight.Split: its own contract states only the odd number of pieces, because it takes arbitrary alternatives. What it computes for non-empty escaped terms is stated by `SplitConcat` and `SplitShape`.
- `Highlight.HighlightIsFaithful`, `Highlight.SplitShape`: require non-empty terms, which all terms in the source are. An empty alternative would match empty strings, which changes the alternation of pieces.
- The JavaScript regular-expression engine is modelled only for what the patterns use: literal characters, backslash-escaped characters and `.`. The `g` flag does not affect `split`.
- Other head elements, and a meta tag carrying both `property` and `name`, are not modelled. Each tag has one key, taken from whichever attribute it carries.
- The 1000 ms simulated request, the 5000 ms hide timer and the 2000 ms help timer are events (`RequestSettles`, `HideTimerFires`, the recorded `Timer`). Time itself is not modelled. The unreachable `catch` branch is the `failed` parameter of `RequestSettles`, and its logging is left out.
- A whole submission in one method (submit, then the request settles) is not modelled. The sequence is given by the two postconditions `HandleSubmit` and `RequestSettles`.
- Presentational markup, animation, the smooth-scroll click handler for anchor links in `src/components/Layout.tsx` and the notification component's own rendering are not modelled.
