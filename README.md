# Portfolio page interactions, modelled in Dafny

`app.js` wires the interactive parts of a static portfolio page. This project
models the sequential logic behind that wiring and proves properties of it:

- **Email validation** (`EmailValidation`, `Email.dfy`). `IsValidEmail` is the
  regular expression `^[^\s@]+@[^\s@]+\.[^\s@]+$`, written as the split of the
  input that the regex engine searches for. It is proved equivalent to a plain
  characterisation: no whitespace, exactly one `@`, a non-empty part before it,
  and a `.` after it that is neither the first nor the last character of the
  domain.
- **Contact form** (`ContactForm`, `ContactForm.dfy`). A `Form` class holds the
  three fields, the submit button's label and disabled flag, and the sends that
  have started but not finished. `Submit` is the submit handler. `CompleteSend`
  is the body of its 2000 ms timer, called explicitly.
- **Notification slot** (`Notifications`, `Notifications.dfy`). A
  `NotificationSlot` class holds the attached notification nodes. `Show` is
  `showNotification`. The timed steps are explicit methods: `SlideIn`, `Close`,
  `AutoDismiss` and `Remove`. A node is identified by the number `Show` gave it,
  which stands for the node reference the timers capture.
- **Navigation** (`Navigation`, `Navigation.dfy`). The menu toggle's two
  `active` flags, and `highlightActiveNav`. The second is a loop over the
  sections in document order that updates the set of active links in place.
- **Scroll thresholds** (`ScrollEffects`, `ScrollEffects.dfy`). The navbar style
  and the scroll-to-top button's visibility, as functions of the scroll offset.
- **Typewriter** (`Typewriter`, `Typewriter.dfy`). The hero title's
  character-by-character animation, as a `HeroTitle` class. Each timer tick is a
  `Type` call, and `Play` runs the chain of ticks until it stops.
- **Footer year** (`FooterYear`, `Footer.dfy`). `replace('2025', year)` on the
  footer text, with the current year as a parameter.

Two details of the code that are easy to misread:

- A section matches the probe position `scrollY + 100` when
  `top <= pos <= top + height`. The interval is closed at both ends, not
  half-open, so at a shared boundary the later section wins.
- Only an empty field fails the "fill in all fields" check. Fields are not
  trimmed, so a field of spaces passes it.

## Model

| member | source | states |
|---|---|---|
| `EmailValidation.ValidEmailCharacterisation` | app.js:162-165 | The regex accepts an input iff it has no whitespace, exactly one '@', a non-empty part before the '@', and after it a '.' that is neither first nor last |
| `EmailValidation.AcceptedExamples` | app.js:163 | `a@b.co` and `first.last@sub.domain.com` are accepted |
| `EmailValidation.RejectedExamples` | app.js:163 | `a@b`, `a@@b.com`, `@b.com`, `a@b.com ` (trailing space) and the empty string are rejected |
| `ContactForm.Rejection` | app.js:135-143 | Any empty field gives "Please fill in all fields.", even when the email is also malformed. Otherwise a malformed email gives "Please enter a valid email address.". No message means all three fields are non-empty and the email is well-formed |
| `ContactForm.Form.Submit` | app.js:125-151 | Fields are never changed. A rejection leaves the label, the disabled flag and the pending sends alone, and leaves exactly one notification: the error message with class `notification notification--error`, with the notification counter advanced by one. An acceptance sets the label to "Sending...", disables the button, remembers the old label, and shows nothing |
| `ContactForm.Form.CompleteSend` | app.js:153-158 | The only notification is the success message with class `notification notification--success`, and the notification counter advances by one. The three fields are empty, and the button is re-enabled with the label saved by the oldest pending send |
| `ContactForm.SubmitAndComplete` | app.js:125-158 | From an idle form, an accepted submit and its completion restore the original label and enable the button. They also empty the fields and leave the success message as the one notification |
| `Notifications.ClassName` | app.js:177 | The class attribute's first token is `notification`, which the next call's `querySelector('.notification')` matches. The second token is `notification--` followed by the type, unchanged |
| `Notifications.AccentFor` | app.js:202-208 | The success accent iff the type is "success", the error accent iff "error", and no accent for any other type |
| `Notifications.NotificationSlot.Show` | app.js:168-210 | Afterwards exactly one notification is attached. It is a fresh node, off screen, with the given message, class and accent. No older node is still attached, and at most one node is ever attached |
| `Notifications.NotificationSlot.SlideIn` | app.js:212-215 | The node slides on screen if it is still attached. Otherwise nothing changes |
| `Notifications.NotificationSlot.Close` | app.js:218-226 | The close click slides the node off screen. A node that is no longer attached changes nothing |
| `Notifications.NotificationSlot.AutoDismiss` | app.js:228-238 | The node slides off and its removal is scheduled iff it is still attached. Otherwise nothing changes |
| `Notifications.NotificationSlot.Remove` | app.js:221-225 | The node is detached and no other node is affected. Removing a node that is not attached, whether already removed or replaced by a newer notification, changes nothing |
| `Notifications.Detach` | app.js:223 | Removing node `id` leaves it unattached, and the remaining nodes are exactly the old nodes with another id, contents unchanged. When the node is absent, the list is unchanged |
| `Navigation.Toggled` | app.js:10-13 | A toggle click flips both the toggle's and the menu's `active` flag |
| `Navigation.Closed` | app.js:16-21 | A link click clears both flags, whatever they were |
| `Navigation.ToggleTwiceRestores` | app.js:10-13 | Two toggle clicks restore the flags |
| `Navigation.HandlersKeepFlagsInSync` | app.js:10-21 | Flags that start equal stay equal under both handlers |
| `Navigation.Menu.Toggle` | app.js:10-13 | The toggle click handler's new flags are `Toggled` of the old ones |
| `Navigation.Menu.CloseOnLinkClick` | app.js:16-21 | The link click handler's new flags are `Closed` of the old ones |
| `Navigation.LastCovering` | app.js:48-62 | The result is the last section in document order whose closed interval [top, top + height] holds the position, or none iff no section holds it |
| `Navigation.LinkFor` | app.js:52 | The result is the first link whose href is "#" + id, or none iff no link has that href |
| `Navigation.NavLinks.HighlightActiveNav` | app.js:45-63 | After the scan at `scrollY + 100`, the active links are those given by `ActiveAfter`. That is the last matching section's link alone, no link if that section has none, and the old set unchanged if nothing matches |
| `Navigation.NoCoveringSectionKeepsActive` | app.js:54-61 | If no section matches, the active links are unchanged |
| `Navigation.LastCoveringSectionWins` | app.js:48-62 | If section m matches and no later one does, only m's link is active, or no link if m has none |
| `Navigation.SoleCoveringSectionIsHighlighted` | app.js:54-60 | If exactly one section matches and it has a link, that link is the only active one |
| `ScrollEffects.NavbarStyleOnScroll` | app.js:27-37 | Taking the offset as `pageYOffset`, or the document's scrollTop when that reads 0, the navbar is dark iff `pageYOffset` exceeds 100, or `pageYOffset` is 0 and the document's scrollTop exceeds 100. Otherwise it is light |
| `ScrollEffects.PageOffsetDecidesNavbar` | app.js:28 | When `pageYOffset` is not 0, the document's scrollTop has no effect on the style, which is `NavbarStyleAt(pageYOffset)` |
| `ScrollEffects.NavbarStyleAt` | app.js:31-37 | The dark style iff the offset exceeds 100, the light style iff it is at most 100 |
| `ScrollEffects.ScrollButtonStyleAt` | app.js:339-345 | The button is shown iff the offset exceeds 300, hidden iff it is at most 300 |
| `ScrollEffects.ThresholdBoundaries` | app.js:31-37 | Offsets 99 and 100 give the light navbar and 101 the dark one. Offset 300 hides the button and 301 shows it |
| `Typewriter.HeroTitle.Start` | app.js:242-255 | The title is cleared and `type()` runs once. The title shows the first character, if there is one, and a tick is scheduled iff the text is non-empty |
| `Typewriter.HeroTitle.Type` | app.js:246-252 | A tick appends the next character, if there is one, and schedules another tick iff it appended a character. So the tick that appends the last character still schedules one more. The shown text is always the first `i` characters of the text |
| `Typewriter.HeroTitle.Play` | app.js:246-254 | The tick chain stops with the whole text shown. Exactly one tick fires per remaining character, plus a final tick that finds nothing to append |
| `FooterYear.FindFrom` | app.js:282 | The result is the first index at or after `from` where the pattern occurs, or none iff it occurs nowhere from there |
| `FooterYear.ReplaceFirst` | app.js:282 | Without an occurrence the text is unchanged. Otherwise the text before the first occurrence is kept, the replacement follows, and then everything after the occurrence |
| `FooterYear.YearString` | app.js:279-282 | The year's decimal digits, without a leading zero, whose value is the year. So no '$' replacement pattern applies |
| `FooterYear.FooterWithoutTokenUnchanged` | app.js:282 | Footer text without "2025" is unchanged |
| `FooterYear.FooterReplacesFirstOccurrence` | app.js:282 | Text `before + "2025" + after`, where `before` holds no earlier "2025", becomes `before + year + after`. Later occurrences are kept |

## Left out

- DOM and event plumbing is not modelled: `addEventListener`, `querySelector(All)`, `classList` and `style` strings, and `innerHTML`. Elements become fields, and class presence becomes booleans or sets of indices.
- Timer delays (100, 300, 500, 2000 and 5000 ms) are not modelled. Each delayed step is an explicit method call, and wall-clock time and the interleaving of overlapping callbacks are not reasoned about.
- Smooth scrolling is left out: the link click's scroll to the target's top minus 70 (app.js:69-84) and the scroll-to-top click (app.js:349-354). Both are calls to the browser's `window.scrollTo`.
- The scroll reveal (app.js:87-108) is left out, because its trigger is browser geometry from an IntersectionObserver.
- The parallax offset `scrolled * -0.5` (app.js:268-276) is left out: it is floating-point pixel arithmetic.
- The hover transforms (app.js:110-120, 286-295, 356-365) are left out: they are only CSS strings.
- The `load` hook (app.js:298-309), the dead `lastScrollTop` variable (app.js:25, 39) and `console.log` are left out. They have no observable logic.
- Scroll offsets are whole numbers. Fractional offsets are not modelled.
- Characters are Unicode scalar values. JavaScript strings are UTF-16 code units, so surrogate halves are not modelled.
- `Navigation.LinkFor`: `querySelector('a[href="#id"]')` searches the whole page. It is modelled as a search of the navigation links only, on the assumption that the first such anchor is a navigation link. Section ids are also assumed to contain no `"`, `\` or line break. The source pastes the id into the selector `a[href="#id"]` (app.js:52). For an id with a quote or line break the selector is invalid: `querySelector` throws and the scan stops before testing whether that section or any later one covers the probe. A backslash starts a CSS escape, so the selector matches a different href than `"#" + id`. The model captures neither case, so `Navigation.NavLinks.HighlightActiveNav`'s contract speaks only of ids without these characters.
- `ContactForm.Form.CompleteSend`: `form.reset()` is modelled as emptying the three fields, on the assumption that the markup gives them empty default values.
- `ContactForm.Rejection`: `FormData.get` returning null for a missing field is not modelled. Each field is a string.
- `Notifications.NotificationSlot.Show`: the default `type = 'info'` of `showNotification` (app.js:168) is not modelled. `Show` always takes a type, and every call in app.js passes one.
- `Notifications.NotificationSlot.SlideIn`, `Notifications.NotificationSlot.Close`: the 100 ms slide-in timer (app.js:213-215) and the close click (app.js:219) have no `parentNode` guard, so they also set the transform on a node that is already detached. That has no visible effect, and both model it as no change.
- `FooterYear.YearString`: years are natural numbers. A negative `getFullYear()` is not modelled.
- The submit handler (app.js:125-159) has no guard of its own against a second submit while a send is pending. What stops a user from resubmitting is the disabled submit button (app.js:150): a disabled button cannot be activated and blocks implicit Enter-key submission. The model does not use `buttonDisabled` to gate `Submit`, so it also admits a submit the browser would not dispatch. Such a submit saves the label "Sending..." and queues its own completion, and completions run in the order they were scheduled.
