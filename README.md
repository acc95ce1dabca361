# IntelliPlan client state, modelled in Dafny

IntelliPlan is a study-planning web application. Behind its pages sit a few client-side
state holders, and this project models them:

- the **Pomodoro timer** (`PomodoroProvider`): a countdown of `minutes:seconds` in one of the modes
  focus, short break and long break, a count of completed focus sessions, and the four settings
  (focus, short-break and long-break length in minutes, sessions until a long break);
- the **task list** (`TaskProvider`): an array of task records with add, edit, delete and toggle,
  loaded once from storage and written back after every change once loading is done;
- the **session guard** (`SessionProvider`): the signed-in user, the redirect and render decisions
  taken from it and the current path, and the local merge after a profile update;
- the **header** (`AppHeader`): the search filter over the navigation items, the light/dark theme,
  and the account menu's avatar fallback and label.

Files: `pomodoro.dfy` (modules `PomodoroTimer`, pure, and `Pomodoro`, the provider class),
`tasks.dfy` (`TaskList`, pure, and `Tasks`, the provider class), `session.dfy` (`Sessions`),
`header.dfy` (`AppHeader`), and the helpers `sequences.dfy` (order-preserving filter),
`ascii.dfy` (lower/upper case and `includes`) and `wrappers.dfy` (`Option`, `Result`).

Each provider is a class whose fields the source replaces through `setState`; each of its
methods is tied by its `ensures` to a pure function of the old state, and the properties the
source promises are proved about those functions.

How the timer behaves, as the code has it:

- A tick counts down with a borrow (`seconds > 0` gives `seconds - 1`, else `minutes > 0` gives
  `minutes - 1, 59`). When neither is positive the interval completes. A focus completion counts a
  session and picks a long break when the new count leaves remainder 0 under JavaScript's `%`
  by `sessionsUntilLongBreak`; a break completion goes back to focus. The timer then stops and
  shows the new mode's full length. The tick's call to `switchMode` inside the state updater is
  modelled by its net effect: the queued updaters applied after the tick's own.
- The effect on `settings`, `mode` and `isActive` re-arms a stopped timer at the full length of
  its mode. So pausing (toggling a running timer) throws the elapsed time away, and a settings
  change re-arms a stopped timer but leaves a running one alone.
- With `sessionsUntilLongBreak` equal to 0, `n % 0` is NaN and never equals 0, so a long break
  never comes (`JsRemainder` returns `None` there; `NoLongBreakWhenZero`).

Three consequences of the code as written:

- The tick at 0:01 shows 0:00, and only the next tick completes the interval, so an interval
  armed at `d` minutes completes on tick `d * 60 + 1` (`IntervalLength`, `FirstFocusScenario`).
- A settings change while the timer runs does not re-arm it (`Rearm` leaves an active state as it
  is), so shortening the current mode's length mid-run leaves a countdown longer than the new
  length (`RunningSettingsChange`). Zero and negative lengths are accepted as well; such an
  interval completes on its first tick.
- Nothing guards against a zero `sessionsUntilLongBreak`; JavaScript's NaN remainder then makes
  every break short (above).

## Model

| member | source | states |
|---|---|---|
| `PomodoroTimer.InitialSettings` | src/hooks/use-pomodoro.tsx:38-49 | the stored settings record when there is one, otherwise focus 25, short break 5, long break 15, long break every 4 sessions |
| `PomodoroTimer.InitialState` | src/hooks/use-pomodoro.tsx:51-57 | start-up state: focus, stopped, no sessions, countdown at `focusDuration`:00 |
| `PomodoroTimer.Duration` | src/hooks/use-pomodoro.tsx:99-105 | the configured length of each mode: focus, short-break or long-break duration |
| `PomodoroTimer.JsRemainder` | src/hooks/use-pomodoro.tsx:125 | JavaScript `%`: NaN (`None`) exactly for divisor 0, otherwise smaller than the divisor in magnitude, with the dividend's sign, and the Euclidean remainder for a non-negative dividend |
| `PomodoroTimer.LongBreakDue` | src/hooks/use-pomodoro.tsx:125 | never due for a divisor of 0; for a non-negative count and a non-zero divisor, due exactly when the divisor divides the count |
| `PomodoroTimer.LongBreakDueIff` | src/hooks/use-pomodoro.tsx:125 | a long break is due exactly when `sessionsUntilLongBreak` is non-zero and divides the new session count |
| `PomodoroTimer.NextMode` | src/hooks/use-pomodoro.tsx:123-134 | after a break comes focus; after focus comes a break, which is long exactly when a long break is due |
| `PomodoroTimer.ModeName` | src/hooks/use-pomodoro.tsx:63-70 | "Focus", "Short Break", "Long Break", each for exactly its own mode |
| `PomodoroTimer.NotificationText` | src/hooks/use-pomodoro.tsx:72-75 | "Time for a break!" exactly when the finished mode is focus, "Time to get back to focus!" otherwise |
| `PomodoroTimer.Notify` | src/hooks/use-pomodoro.tsx:72-80 | the completion notice: title "🔔 <mode name> Finished!" and the notification text of the finished mode |
| `PomodoroTimer.Merge` | src/hooks/use-pomodoro.tsx:171-173 | each supplied field replaces the old value, each absent field keeps it |
| `PomodoroTimer.MergeIdempotent` | src/hooks/use-pomodoro.tsx:171-173 | applying a patch twice equals applying it once; the empty patch changes nothing |
| `PomodoroTimer.SwitchModeState` | src/hooks/use-pomodoro.tsx:96-106 | stopped, in the new mode, at its configured length with 0 seconds (so `Remaining` is length × 60), session count unchanged |
| `PomodoroTimer.Rearm` | src/hooks/use-pomodoro.tsx:152-160 | a running timer is left alone; a stopped one is re-armed at the full length of its mode, mode and count unchanged |
| `PomodoroTimer.RearmAfterSwitch` | src/hooks/use-pomodoro.tsx:152-160 | the effect after a mode switch changes nothing |
| `PomodoroTimer.InitialStateArmed` | src/hooks/use-pomodoro.tsx:51-57 | the effect's first run leaves the start-up state as it is |
| `PomodoroTimer.IdleSettingsChange` | src/hooks/use-pomodoro.tsx:152-160 | with the timer stopped, a settings change re-arms the countdown at the current mode's new length; a new focus length `d` in focus mode gives `d * 60` seconds |
| `PomodoroTimer.RunningSettingsChange` | src/hooks/use-pomodoro.tsx:152-160 | with the timer running, a settings change leaves the state record unchanged; focus shortened from 25 to 5 minutes at 25:00 keeps more than 5 minutes on the clock |
| `PomodoroTimer.Toggle` | src/hooks/use-pomodoro.tsx:163-165 | starting flips only `isActive`; pausing stops and re-arms at the mode's full length |
| `PomodoroTimer.StartThenPause` | src/hooks/use-pomodoro.tsx:152-165 | start then pause gives the armed state of the current mode, and returns to the original state exactly when it was already armed |
| `PomodoroTimer.Tick` | src/hooks/use-pomodoro.tsx:112-135 | with time left: no notice, one second less, mode, count and `isActive` unchanged, seconds stay in 0..59; at the end: the finished mode's notice, stopped and armed at the new mode's full length, focus adds one session and turns into a long break exactly when one is due, otherwise a short break, a break turns into focus with the count unchanged |
| `PomodoroTimer.CountdownAfter` | src/hooks/use-pomodoro.tsx:114-119 | `k` ticks with time left take `k` seconds off and change nothing else, the display showing the rest split into minutes and seconds |
| `PomodoroTimer.IntervalLength` | src/hooks/use-pomodoro.tsx:112-135 | an interval armed at `d >= 0` minutes stays in its mode and does not complete for `d * 60` ticks, shows 0:00 after them, and completes on the next |
| `PomodoroTimer.FirstFocusScenario` | src/hooks/use-pomodoro.tsx:114-130 | defaults: from focus 0:01 one tick shows 0:00; the next tick gives a stopped 5:00 short break with one session and the text "Time for a break!" |
| `PomodoroTimer.FourthFocusScenario` | src/hooks/use-pomodoro.tsx:123-130 | defaults: completing focus with 3 sessions done gives a stopped 15:00 long break with 4 sessions |
| `PomodoroTimer.NoLongBreakWhenZero` | src/hooks/use-pomodoro.tsx:125-129 | with `sessionsUntilLongBreak` 0 a focus completion always leads to a short break |
| `Pomodoro.PomodoroProvider.constructor` | src/hooks/use-pomodoro.tsx:38-57 | settings from storage or defaults, start-up state, settings written back |
| `Pomodoro.PomodoroProvider.SwitchMode` | src/hooks/use-pomodoro.tsx:96-106 | new state is `SwitchModeState` of the old; settings untouched |
| `Pomodoro.PomodoroProvider.RearmEffect` | src/hooks/use-pomodoro.tsx:152-160 | settings written to storage; new state is `Rearm` of the old |
| `Pomodoro.PomodoroProvider.Tick` | src/hooks/use-pomodoro.tsx:112-135 | new state and returned notice are `Tick` of the old settings and state; settings untouched |
| `Pomodoro.PomodoroProvider.ToggleTimer` | src/hooks/use-pomodoro.tsx:163-165 | new state is `Toggle` of the old |
| `Pomodoro.PomodoroProvider.ResetTimer` | src/hooks/use-pomodoro.tsx:167-169 | switches to the given mode, or to the current one when none is given |
| `Pomodoro.PomodoroProvider.SetSettings` | src/hooks/use-pomodoro.tsx:171-173 | settings become `Merge` of the old with the patch, the state is re-armed under them when stopped, storage mirrors them |
| `TaskList.WithInput` | src/hooks/use-tasks.tsx:73 | the input's title, subject, due date and priority over the task; id and `completed` kept |
| `TaskList.AddTask` | src/hooks/use-tasks.tsx:61-68 | the old list unchanged as prefix, one new task at the end with the given id and fields and `completed` false |
| `TaskList.EditTask` | src/hooks/use-tasks.tsx:70-76 | same length, ids and `completed` flags; tasks with the id take the input's fields, all others are unchanged |
| `TaskList.DeleteTask` | src/hooks/use-tasks.tsx:78-80 | no task with the id remains; every other task stays, as often as before and in its original order |
| `TaskList.ToggleTaskComplete` | src/hooks/use-tasks.tsx:82-88 | same length; tasks with the id have only `completed` flipped, all others are unchanged |
| `TaskList.ToggleTwice` | src/hooks/use-tasks.tsx:82-88 | toggling the same id twice restores the list |
| `TaskList.AbsentIdChangesNothing` | src/hooks/use-tasks.tsx:70-88 | edit, delete and toggle of an id no task has leave the list unchanged |
| `TaskList.DeleteAfterAdd` | src/hooks/use-tasks.tsx:61-80 | deleting the id just added gives what deleting it from the old list gives |
| `TaskList.DeleteOtherAfterAdd` | src/hooks/use-tasks.tsx:61-80 | deleting another id after an add keeps the added task at the end |
| `TaskList.EditToggleCommute` | src/hooks/use-tasks.tsx:70-88 | edit and toggle commute |
| `Tasks.TaskProvider.constructor` | src/hooks/use-tasks.tsx:33-34 | empty list, not loaded, nothing written |
| `Tasks.TaskProvider.SaveEffect` | src/hooks/use-tasks.tsx:51-59 | the list is written exactly when loading is done |
| `Tasks.TaskProvider.Load` | src/hooks/use-tasks.tsx:37-48 | a parsed array replaces the list, a missing or unreadable value leaves it; loading is done in every case and storage then mirrors the list |
| `Tasks.TaskProvider.AddTask` | src/hooks/use-tasks.tsx:61-68 | new list is `TaskList.AddTask` of the old; the save gating invariant is kept |
| `Tasks.TaskProvider.EditTask` | src/hooks/use-tasks.tsx:70-76 | new list is `TaskList.EditTask` of the old; the save gating invariant is kept |
| `Tasks.TaskProvider.DeleteTask` | src/hooks/use-tasks.tsx:78-80 | new list is `TaskList.DeleteTask` of the old; the save gating invariant is kept |
| `Tasks.TaskProvider.ToggleTaskComplete` | src/hooks/use-tasks.tsx:82-88 | new list is `TaskList.ToggleTaskComplete` of the old; the save gating invariant is kept |
| `Sessions.RedirectFor` | src/hooks/use-session.tsx:55-64 | no redirect while loading; a signed-in user on `/login`, `/signup` or `/` goes to `/dashboard`; a signed-out user elsewhere goes to `/login`; a redirect happens in no other case |
| `Sessions.ViewFor` | src/hooks/use-session.tsx:66-85 | the spinner exactly while loading; the children exactly when loaded and there is a user or the route is public; otherwise nothing |
| `Sessions.IsPublicRoute` | src/hooks/use-session.tsx:57-74 | public exactly for `/login`, `/signup` and `/`, each a path starting with '/' |
| `Sessions.RedirectSettles` | src/hooks/use-session.tsx:55-85 | the target of a redirect neither redirects again nor withholds the page |
| `Sessions.NothingMeansLogin` | src/hooks/use-session.tsx:55-85 | nothing is rendered exactly when the guard redirects to `/login` |
| `Sessions.MergeProfile` | src/hooks/use-session.tsx:45-51 | a missing local user is left as it is; otherwise a supplied display name replaces the old one, uid, email and `loading` are kept |
| `Sessions.MergeProfileIdempotent` | src/hooks/use-session.tsx:45-51 | the same update applied twice equals one |
| `Sessions.SessionProvider.constructor` | src/hooks/use-session.tsx:27 | the session starts with no user and `loading` true |
| `Sessions.SessionProvider.OnAuthStateChanged` | src/hooks/use-session.tsx:32-34 | the session becomes the reported user with `loading` false |
| `Sessions.SessionProvider.UpdateUserProfile` | src/hooks/use-session.tsx:38-52 | fails with "No user is signed in to update profile." when there is no current user, fails with the remote error when the remote update rejects, and otherwise succeeds with the session merged |
| `AppHeader.FilteredNavItems` | src/components/app-header.tsx:100-107 | all items for an empty query; otherwise an order-preserving subsequence holding exactly the items (with their multiplicity) whose lowercased label includes the lowercased query |
| `AppHeader.FilterIgnoresCase` | src/components/app-header.tsx:104-106 | a query and its lowercase form select the same items |
| `AppHeader.MenuFilter` | src/components/app-header.tsx:47-107 | over the header's five items, an empty query shows them all and any query shows at most those items |
| `AppHeader.NextTheme` | src/components/app-header.tsx:76-77 | 'dark' exactly for 'light', otherwise 'light' |
| `AppHeader.ToggleThemeTwice` | src/components/app-header.tsx:76-77 | toggling twice restores the theme exactly when it was 'light' or 'dark' |
| `AppHeader.InitialTheme` | src/components/app-header.tsx:67 | the stored value when present and non-empty, otherwise 'dark' |
| `AppHeader.ThemeState.constructor` | src/components/app-header.tsx:64-74 | the theme starts at `InitialTheme` of the stored value, and the dark class is set exactly when it is 'dark' |
| `AppHeader.ThemeState.ToggleTheme` | src/components/app-header.tsx:76-81 | new theme is `NextTheme` of the old, storage holds it, the dark class is set exactly when it is 'dark' |
| `AppHeader.AvatarFallback` | src/components/app-header.tsx:170 | the uppercased first character of the display name when there is one (empty for an empty name); with no display name, that of the email; 'U' without a user or without both; at most one character, never a lower-case ASCII letter |
| `AppHeader.AccountLabel` | src/components/app-header.tsx:175 | the display name when there is one, even an empty one; with no display name, the email; 'My Account' without a user or without both |
| `AppHeader.AvatarFollowsLabel` | src/components/app-header.tsx:170-175 | when the user has a display name or an email, the avatar is the uppercased first character of the label; otherwise 'U' and 'My Account' |
| `AppHeader.EmptyDisplayNameNotReplaced` | src/components/app-header.tsx:170-175 | an empty display name is not replaced by the email: avatar and label are both empty |
| `Sequences.Filter` | src/hooks/use-tasks.tsx:79 | `Array.prototype.filter`: an order-preserving subsequence holding exactly the passing elements with their multiplicity |
| `Sequences.FilterAppend` | src/hooks/use-tasks.tsx:79 | filtering distributes over concatenation |
| `Ascii.Lower` | src/components/app-header.tsx:105 | `toLowerCase` over ASCII: same length, each character lowered |
| `Ascii.UpperFirst` | src/components/app-header.tsx:170 | `charAt(0).toUpperCase()`: empty for an empty string, otherwise the first character uppercased |
| `Ascii.Includes` | src/components/app-header.tsx:105 | `includes`: only a needle no longer than the string is included; a prefix and the empty string always are |
| `Ascii.IncludesIff` | src/components/app-header.tsx:105 | `includes` holds exactly when the needle occurs at some position |

## Left out

- Wall-clock timing: `setInterval`/`clearInterval` are not modelled; a tick is a call of `Tick`, which the source only schedules while the timer runs (the updater itself does not look at `isActive`, and neither does the model).
- React scheduling and StrictMode's double invocation of updaters are not modelled; each operation is applied with the effects its state change triggers.
- The public `SwitchMode` and `ResetTimer` do not run the re-arm effect afterwards, because after a mode switch it changes nothing (`RearmAfterSwitch`) and the settings it writes are already stored.
- The completion notice is built from the mode of the last render, the mode decision from the state record inside the updater; the model uses the state record's mode for both, as they agree whenever a render separates two ticks.
- `getModeName`'s default arm ("Pomodoro Timer") cannot be reached with the three modes, so it is not modelled.
- Audio playback, the browser notification API with its permission request, and toasts are foreign side effects; `Tick` only returns the notice (toast title and text). The desktop notification's fixed title "Pomodoro Timer" and icon are not recorded.
- Storage and JSON encoding are replaced by abstract optional values (`stored`/`saved` parameters and fields). A stored settings string that fails to parse (the source throws) and a parsed value of the wrong shape are not modelled.
- Settings values are integers; the fractional and NaN values a JavaScript number can hold are not modelled.
- The task id from `Date.now()` is a parameter; its uniqueness is not guaranteed by the source and not assumed.
- The authentication service: `auth.currentUser` and the outcome of its profile update are parameters of `UpdateUserProfile`; `router.push` is the `Redirect` value. Sign-out, sign-up and the service's configuration are outside the model.
- The user record carries only uid, email and display name; the other properties a spread of the service's user object copies are not modelled.
- Case mapping covers ASCII letters only; the full Unicode `toLowerCase`/`toUpperCase` is not modelled.
- `UpperFirst`: `charAt(0)` takes the first UTF-16 code unit, which for a character outside the Basic Multilingual Plane is half a surrogate pair; the model's strings are sequences of Unicode characters and it takes the whole first character.
- The search query comes from a search hook that is not part of this model; it is a parameter. The avatar image URL, the menu's open state and the "Coming Soon" toast are presentation.
- Presentation-only files (the landing page, layouts, the hamburger icon, the calendar widget, the sidebar's active-link styling) have no logic modelled here.
