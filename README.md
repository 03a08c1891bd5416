# Wurst7 hacks and keybinds, modelled in Dafny

This project models four pieces of the Wurst7 Minecraft client:

- **The hack on/off transition** (`Hack.setEnabled`). A hack is turned on or
  off through one guarded step. A request for the state the hack is already
  in does nothing. A request to turn it on is vetoed while TooManyHax is
  enabled and blocks the hack. Any other request is committed: the new state
  is stored first, then the HUD hack list is updated (except for Navigator
  and ClickGUI), then the enable or disable hook runs, then the set of
  enabled hacks is saved (only for state-saved hacks). The pure companions
  are modelled as well: the HUD render name, the primary action and the
  description key.
- **The key-capture screen** (`PressAKeyScreen`). Escape cancels. A bare
  modifier key is ignored. Any other key is captured once, as the canonical
  name `("ctrl+")? ("alt+")? ("shift+")? <translation key>`.
- **The keybind manager's key display** (`Entry.formatKeyDisplay`). A
  combination is split on `+`; a part that starts with the `key.keyboard.`
  namespace loses every occurrence of it, any other part keeps it;
  ctrl/alt/shift are capitalised, and the parts are joined with `" + "`. A
  single key loses every occurrence of the namespace.
- **NoFall**. Its HUD status, its per-tick decision to send an on-ground
  packet, and its hooks, which turn AntiHunger off and register the hack for
  updates.

The files are:

- `options.dfy`: the Option type.
- `strings.dfy`: the `java.lang.String` operations that the code relies on
  (trim, toLowerCase, equalsIgnoreCase, startsWith, contains, replace,
  split on a one-char regex, StringBuilder joining), over `seq<char>`.
- `press_a_key.dfy`: the capture screen and the key-name encoder.
- `keybind_display.dfy`: the display formatter.
- `key_name_display.dfy`: what the display shows for the encoder's output.
- `nofall.dfy`: NoFall's decision table.
- `hacks.dfy`: the `Hack` and `WurstClient` classes. The transition's side
  effects are recorded as an event trace on the client.

Hack subclasses are modelled as a `Kind` tag on one `Hack` class. Every hook
records that it was called. NoFall's hooks also do what its source does.
NoFall's enable hook calls `setEnabled(false)` on AntiHunger, so
`SetEnabled` and the hooks are mutually recursive. The recursion is bounded
by a rank: a NoFall hook only calls into a hack of lower rank.

## Model

| member | source | states |
|---|---|---|
| Strings.Trim | src/main/java/net/wurstclient/hack/Hack.java:52 | `String.trim`: the result has no blank (char <= U+0020) at either end, and it is the infix of the input left after removing only blanks from both ends |
| Strings.TrimBlank | src/main/java/net/wurstclient/hack/Hack.java:52-53 | an alias made only of blanks trims to the empty string, so the hack's name is used |
| Strings.TrimUnpadded | src/main/java/net/wurstclient/hack/Hack.java:52 | a string without blanks at its ends trims to itself |
| Strings.TrimIdempotent | src/main/java/net/wurstclient/hack/Hack.java:52 | trimming twice is trimming once |
| Strings.ToLowerIdempotent | src/main/java/net/wurstclient/hack/Hack.java:39 | lower-casing twice is lower-casing once |
| Strings.ToLower | src/main/java/net/wurstclient/hack/Hack.java:39 | `String.toLowerCase`: same length, every char mapped to its lower-case form |
| Strings.EqualsIgnoreCase | src/main/java/net/wurstclient/options/KeybindManagerScreen.java:210-215 | two strings are equal ignoring case iff they have the same length and agree at every index after lower-casing |
| Strings.StartsWithIsPrefix | src/main/java/net/wurstclient/options/KeybindManagerScreen.java:206 | a string starts with a prefix iff it is that prefix followed by some rest |
| Strings.StartsWithConcat | src/main/java/net/wurstclient/options/KeybindManagerScreen.java:206 | a prefix followed by anything starts with that prefix, and the rest follows it |
| Strings.Contains | src/main/java/net/wurstclient/options/KeybindManagerScreen.java:195 | `String.contains`: the empty pattern is in every string, and a pattern longer than the string is not in it |
| Strings.ContainsChar | src/main/java/net/wurstclient/options/KeybindManagerScreen.java:195 | `contains("+")` holds iff the char `+` occurs in the string |
| Strings.Join | src/main/java/net/wurstclient/options/KeybindManagerScreen.java:198-217 | the `StringBuilder` join: no parts give "", one part gives that part, and the text starts with the first part |
| Strings.JoinSnoc | src/main/java/net/wurstclient/options/KeybindManagerScreen.java:200-217 | appending one more part appends the separator and that part |
| Strings.ReplaceAll | src/main/java/net/wurstclient/options/KeybindManagerScreen.java:224 | `String.replace`: a string without the pattern is unchanged, and no char appears that is in neither the input nor the replacement |
| Strings.ReplaceAllKeepsPrefix | src/main/java/net/wurstclient/options/KeybindManagerScreen.java:224 | text before the first occurrence of the pattern is copied unchanged |
| Strings.ReplaceAllAt | src/main/java/net/wurstclient/options/KeybindManagerScreen.java:224 | replacing is left to right: when the leftmost occurrence is at i, the result is the text before i, the replacement, then the replacement of the text after that occurrence |
| Strings.ReplaceAllUnmatched | src/main/java/net/wurstclient/options/KeybindManagerScreen.java:224 | a first char that starts no occurrence is copied and replacing goes on from the next char |
| Strings.ReplaceAllLeading | src/main/java/net/wurstclient/options/KeybindManagerScreen.java:207 | a leading occurrence of the pattern is the first one replaced |
| Strings.JavaSplit | src/main/java/net/wurstclient/options/KeybindManagerScreen.java:197 | `split("\\+")`: no part holds the separator; without a separator the result is the input alone; otherwise the parts are the segments between separators with the trailing empty segments dropped, so the last part is never empty, and there are at most one more parts than separators |
| Strings.SplitOn | src/main/java/net/wurstclient/options/KeybindManagerScreen.java:197 | the raw split: one more segment than separators, and no segment holds the separator |
| Strings.DropTrailingEmpty | src/main/java/net/wurstclient/options/KeybindManagerScreen.java:197 | the second half of Java's split: a prefix of the segments whose last part is not empty, and every segment dropped is empty |
| Strings.SplitOnSnoc | src/main/java/net/wurstclient/options/KeybindManagerScreen.java:197 | a separator at the end adds one empty segment |
| Strings.JavaSplitTrailingSeparator | src/main/java/net/wurstclient/options/KeybindManagerScreen.java:197 | a trailing separator is dropped by Java's split: for a string that holds the separator, adding one more at the end gives the same parts |
| Strings.SplitOnJoin | src/main/java/net/wurstclient/options/KeybindManagerScreen.java:197 | splitting a join of separator-free parts gives the parts back |
| Strings.JoinSplitOn | src/main/java/net/wurstclient/options/KeybindManagerScreen.java:197 | joining all segments of a split with the separator gives the string back |
| Strings.JavaSplitJoin | src/main/java/net/wurstclient/options/KeybindManagerScreen.java:197 | a string that does not end with the separator loses nothing to Java's dropping of trailing empty parts |
| Strings.JavaSplitOfJoin | src/main/java/net/wurstclient/options/KeybindManagerScreen.java:195-197 | a join of two or more separator-free parts with a non-empty last part contains the separator, and Java's split gives the parts back |
| Strings.JoinPlusCount | src/main/java/net/wurstclient/options/KeybindManagerScreen.java:200-203 | in a `" + "` join of `+`-free parts, n parts give exactly n - 1 `+` chars |
| PressAKey.IsModifierKey | src/main/java/net/wurstclient/options/PressAKeyScreen.java:73-82 | true exactly for the eight left/right ctrl, alt, shift and super keys (GLFW 340..347), so never for Escape |
| PressAKey.Ctrl | src/main/java/net/wurstclient/options/PressAKeyScreen.java:53 | ctrl counts as held iff the GLFW control bit (0x2) is set in the mask |
| PressAKey.Alt | src/main/java/net/wurstclient/options/PressAKeyScreen.java:54 | alt counts as held iff the GLFW alt bit (0x4) is set in the mask |
| PressAKey.Shift | src/main/java/net/wurstclient/options/PressAKeyScreen.java:55 | shift counts as held iff the GLFW shift bit (0x1) is set in the mask |
| PressAKey.ModifierTestsIndependent | src/main/java/net/wurstclient/options/PressAKeyScreen.java:53-55 | the three tests read three different bits, so every combination of held ctrl, alt and shift is told apart |
| PressAKey.ModifierPrefix | src/main/java/net/wurstclient/options/PressAKeyScreen.java:61-67 | the prefix is empty iff no modifier is held, otherwise it ends with `+`; its length adds 5, 4 and 6 for ctrl+, alt+ and shift+ |
| PressAKey.KeyName | src/main/java/net/wurstclient/options/PressAKeyScreen.java:50-71 | the name ends with the translation key of the pressed key |
| PressAKey.KeyNameHasPrefix | src/main/java/net/wurstclient/options/PressAKeyScreen.java:61-68 | the name is the modifier prefix `ctrl+`? `alt+`? `shift+`? of the mask, in that order, followed by the translation key |
| PressAKey.ParsePrefixes | src/main/java/net/wurstclient/options/PressAKeyScreen.java:61-68 | reading a prefixed key back recovers each flag (its prefix is present iff the flag is set) and the base key |
| PressAKey.ParseKeyNameInverts | src/main/java/net/wurstclient/options/PressAKeyScreen.java:53-68 | decoding the name gives exactly the ctrl, alt and shift bits of the mask and the translation key |
| PressAKey.KeyNameDistinguishesModifiers | src/main/java/net/wurstclient/options/PressAKeyScreen.java:61-68 | two masks that give the same name for a key agree on ctrl, alt and shift: the eight combinations give eight names |
| PressAKey.KeyNameIgnoresOtherBits | src/main/java/net/wurstclient/options/PressAKeyScreen.java:53-55 | mask bits other than ctrl, alt and shift (super included) do not change the name |
| PressAKey.Respond | src/main/java/net/wurstclient/options/PressAKeyScreen.java:32-48 | Escape cancels, a bare modifier keeps the screen open, and every other key is captured with its key name; the three cases are exclusive and exhaustive |
| PressAKey.ResponseCalls | src/main/java/net/wurstclient/options/PressAKeyScreen.java:34-47 | a capture calls `setKey` exactly once, with the captured key, then returns to the previous screen; Escape only returns to the previous screen; a bare modifier makes no call; `setKey` is never called with any other key |
| PressAKey.PressAKeyScreen.KeyPressed | src/main/java/net/wurstclient/options/PressAKeyScreen.java:32-48 | the calls one key press appends are those of its response |
| PressAKey.Open | src/main/java/net/wurstclient/options/PressAKeyScreen.java:21-29 | a callback that is not a screen is refused with "prevScreen is not a screen"; otherwise a new screen that has made no call |
| KeybindDisplay.FormatPart | src/main/java/net/wurstclient/options/KeybindManagerScreen.java:205-217 | ctrl/alt/shift in any case become Ctrl/Alt/Shift; a part that neither starts with the namespace nor is a modifier word is kept as it is; a part without `+` gives a label without `+` |
| KeybindDisplay.IsModifierWord | src/main/java/net/wurstclient/options/KeybindManagerScreen.java:210-215 | a part is a modifier word iff, lower-cased, it is "ctrl", "alt" or "shift" |
| KeybindDisplay.NamespacedPart | src/main/java/net/wurstclient/options/KeybindManagerScreen.java:206-207 | a part that starts with the namespace loses every occurrence of it, and is shown as the rest when that is no modifier word |
| KeybindDisplay.StripsInnerNamespace | src/main/java/net/wurstclient/options/KeybindManagerScreen.java:207 | `replace` removes an occurrence of the namespace that is not at the start: "akey.keyboard.b" becomes "ab" |
| KeybindDisplay.NamespacedPartStripsAll | src/main/java/net/wurstclient/options/KeybindManagerScreen.java:206-207 | the part "key.keyboard.akey.keyboard.b" is shown as "ab" |
| KeybindDisplay.KeyDisplay | src/main/java/net/wurstclient/options/KeybindManagerScreen.java:192-225 | a key that holds `+` but splits into one part shows that part formatted, as the loop does for one iteration |
| KeybindDisplay.FormatKeyDisplay | src/main/java/net/wurstclient/options/KeybindManagerScreen.java:192-225 | the loop builds the display of the key: the formatted Java-split parts joined with `" + "` for a combination, the key without the namespace otherwise |
| KeybindDisplay.CombinationSeparators | src/main/java/net/wurstclient/options/KeybindManagerScreen.java:195-220 | a combination of n parts shows n - 1 separators; a key made only of `+` shows as "" |
| KeybindDisplay.SingleKeyUnchanged | src/main/java/net/wurstclient/options/KeybindManagerScreen.java:224 | a single key without the namespace is shown unchanged |
| KeybindDisplay.SingleKeyStripped | src/main/java/net/wurstclient/options/KeybindManagerScreen.java:224 | a single namespaced key shows its name, with any later namespace occurrence removed too |
| KeybindDisplay.SingleKeyStripsInside | src/main/java/net/wurstclient/options/KeybindManagerScreen.java:224 | a single key loses the namespace even in its middle: "xkey.keyboard.y" shows "xy" |
| KeybindDisplay.CombinationPartKeepsInside | src/main/java/net/wurstclient/options/KeybindManagerScreen.java:206-207 | a part of a combination that does not start with the namespace keeps a namespace inside it |
| KeybindDisplay.TrailingSeparatorDropped | src/main/java/net/wurstclient/options/KeybindManagerScreen.java:195-217 | "ctrl+" shows as "Ctrl": the empty trailing part is dropped by the split, so no separator is shown |
| KeyNameDisplay.PrefixIsJoin | src/main/java/net/wurstclient/options/PressAKeyScreen.java:61-68 | a key name is its modifier words and its base key joined with `+` |
| KeyNameDisplay.FormatModifierLabels | src/main/java/net/wurstclient/options/KeybindManagerScreen.java:210-215 | the modifier words of a key name are shown as Ctrl, Alt, Shift, in the same order |
| KeyNameDisplay.FormatKeyboardKey | src/main/java/net/wurstclient/options/KeybindManagerScreen.java:206-207 | the last part `key.keyboard.t` is shown as `t` |
| KeyNameDisplay.DisplayOfJoin | src/main/java/net/wurstclient/options/KeybindManagerScreen.java:195-218 | a name joined from two or more `+`-free words shows exactly those words, formatted, joined with `" + "` |
| KeyNameDisplay.DisplayOfCombo | src/main/java/net/wurstclient/options/KeybindManagerScreen.java:192-225 | the display of a canonical keyboard key name is the held modifiers as Ctrl, Alt, Shift in that order, then the key's own name, joined with `" + "` |
| KeyNameDisplay.DisplayOfKeyName | src/main/java/net/wurstclient/options/KeybindManagerScreen.java:192-225 | the same for the name the capture screen builds from a key press |
| KeyNameDisplay.CtrlAltFExample | src/main/java/net/wurstclient/options/KeybindManagerScreen.java:192-225 | "ctrl+alt+key.keyboard.f" is shown as "Ctrl + Alt + f" |
| NoFall.StatusInfo | src/main/java/net/wurstclient/hacks/NoFallHack.java:31-45 | no status without a player; with one, "(paused)" iff gliding with elytra not allowed, or in creative mode; nothing else |
| NoFall.SendsOnGroundPacket | src/main/java/net/wurstclient/hacks/NoFallHack.java:60-80 | no packet in creative mode, nor while gliding with elytra not allowed, nor while gliding, sneaking and not falling fast; a packet in every other case |
| NoFall.PausedSendsNothing | src/main/java/net/wurstclient/hacks/NoFallHack.java:38-42 | while the status is "(paused)" no packet is sent |
| NoFall.UnpausedSends | src/main/java/net/wurstclient/hacks/NoFallHack.java:74-79 | without a status, a packet is sent iff the player is not braking a glide by sneaking |
| NoFall.SlowSneakingGlideNotShown | src/main/java/net/wurstclient/hacks/NoFallHack.java:74-76 | an allowed, slow, sneaking glide shows no status yet sends nothing |
| Hacks.DescriptionKey | src/main/java/net/wurstclient/hack/Hack.java:39 | the key is "description.wurst.hack." followed by the name lower-cased char by char, as long as both, with no upper-case letter after the prefix |
| Hacks.DescriptionKeyIgnoresCase | src/main/java/net/wurstclient/hack/Hack.java:39 | two names share a description key iff they are equal ignoring case |
| Hacks.DescriptionKeyOfLowered | src/main/java/net/wurstclient/hack/Hack.java:39 | lower-casing the name first does not change the key |
| Hacks.Decide | src/main/java/net/wurstclient/hack/Hack.java:103-108 | a request is a no-op iff it asks for the current state; it is vetoed iff it asks to turn the hack on while TooManyHax is enabled and blocks it; only turning on can be vetoed |
| Hacks.Next | src/main/java/net/wurstclient/hack/Hack.java:101-110 | the new state is the requested one unless vetoed; a vetoed hack stays off; repeating the request afterwards commits nothing |
| Hacks.TooManyHaxNeverVetoesItself | src/main/java/net/wurstclient/hack/Hack.java:106-107 | TooManyHax is never vetoed by its own policy, which is off whenever it is turned on |
| Hacks.PrimaryAction | src/main/java/net/wurstclient/hack/Hack.java:127 | "Disable" iff enabled, "Enable" iff disabled |
| Hacks.ToggleTwiceRestores | src/main/java/net/wurstclient/hack/Hack.java:133 | two primary actions that are not vetoed restore the original state |
| Hacks.BaseName | src/main/java/net/wurstclient/hack/Hack.java:52-53 | the HUD base name is the trimmed alias when that is not empty, and the name otherwise |
| Hacks.RenderName | src/main/java/net/wurstclient/hack/Hack.java:50-60 | the render name starts with the base name; it is the base name alone for a null or empty status, else the base name, a space and the status |
| Hacks.RenderNameShowsStatus | src/main/java/net/wurstclient/hack/Hack.java:56-59 | with a non-empty status the render name is the base name, a space and the status |
| Hacks.BlankAliasShowsName | src/main/java/net/wurstclient/hack/Hack.java:52-53 | an alias of blanks only is rendered as no alias |
| Hacks.AliasShownAsIs | src/main/java/net/wurstclient/hack/Hack.java:52-53 | an alias without blanks at its ends is the base name |
| Hacks.NoFallPausedRenderName | src/main/java/net/wurstclient/hack/Hack.java:56-59 | a paused NoFall without alias is rendered "NoFall (paused)" |
| Hacks.CommitEvents | src/main/java/net/wurstclient/hack/Hack.java:110-121 | a committed change emits the hack-list update first (iff listed), then exactly the hook's events, then the save last (iff state-saved) |
| Hacks.AntiHungerOffEvents | src/main/java/net/wurstclient/hacks/NoFallHack.java:50 | turning AntiHunger off emits nothing iff it is already off, and only AntiHunger's list update, its disable hook and the save |
| Hacks.AntiHungerOffIsSetEnabled | src/main/java/net/wurstclient/hacks/NoFallHack.java:50 | the events of turning AntiHunger off are those of the general `setEnabled(false)` on it, whatever the TooManyHax policy |
| Hacks.EnableHookEvents | src/main/java/net/wurstclient/hacks/NoFallHack.java:48-52 | the enable hook records its call first; any hack but NoFall does nothing else; NoFall's ends by registering for updates |
| Hacks.DisableHookEvents | src/main/java/net/wurstclient/hacks/NoFallHack.java:54-58 | the disable hook records its call first; NoFall's ends by unregistering |
| Hacks.HookEvents | src/main/java/net/wurstclient/hack/Hack.java:115-118 | the hook that runs is the enable hook iff the new state is on, and it never ends with a save |
| Hacks.SetEnabledEvents | src/main/java/net/wurstclient/hack/Hack.java:101-122 | a request emits nothing iff it is a no-op or vetoed |
| Hacks.SetEnabledEventsCommitted | src/main/java/net/wurstclient/hack/Hack.java:110-121 | a committed request emits the listed update, the hook's events and the save, in that order |
| Hacks.CommitOrder | src/main/java/net/wurstclient/hack/Hack.java:110-121 | the first event is the hack-list update iff the hack is listed; the hook call comes next; the last event is the save iff the hack is state-saved |
| Hacks.InHackList | src/main/java/net/wurstclient/hack/Hack.java:112 | every hack is in the HUD hack list except Navigator and ClickGUI |
| Hacks.HookEventsCallOnce | src/main/java/net/wurstclient/hack/Hack.java:115-118 | a hook calls its own hack's hooks exactly once, even when it turns AntiHunger off |
| Hacks.ExactlyOneHook | src/main/java/net/wurstclient/hack/Hack.java:115-118 | a committed change runs exactly one hook of the hack: enable iff the new state is on |
| Hacks.CommitAddsNoHook | src/main/java/net/wurstclient/hack/Hack.java:112-121 | the hack-list update and the save around the hook call no hook |
| Hacks.ListenerFollowsState | src/main/java/net/wurstclient/hacks/NoFallHack.java:48-58 | NoFall is registered for updates exactly while it is enabled, after any request to set its state |
| Hacks.Hack.constructor | src/main/java/net/wurstclient/hack/Hack.java:36-42 | a new hack keeps its name, has the lower-cased description key, is disabled, has an empty alias and is state-saved unless marked otherwise |
| Hacks.WurstClient.constructor | src/main/java/net/wurstclient/hack/Hack.java:106-107 | the client context `WURST.getHax()` stands for: it holds TooManyHax, AntiHunger and the set of hacks TooManyHax blocks, and starts with an empty trace |
| Hacks.Hack.NoFallDefaults | src/main/java/net/wurstclient/hacks/NoFallHack.java:21-29 | NoFall is named "NoFall", is in the movement category, is saved, starts disabled and has elytra not allowed |
| Hacks.Hack.GetStatusInfo | src/main/java/net/wurstclient/hack/Hack.java:68-71 | hacks other than NoFall have no status; NoFall's is at most "(paused)" |
| Hacks.Hack.GetRenderName | src/main/java/net/wurstclient/hack/Hack.java:50-60 | the render name starts with the base name; it is the base name for a hack without status, and the base name, a space and the status otherwise |
| Hacks.Hack.GetPrimaryAction | src/main/java/net/wurstclient/hack/Hack.java:125-128 | "Disable" when the hack is enabled, "Enable" when it is disabled |
| Hacks.Hack.SetEnabled | src/main/java/net/wurstclient/hack/Hack.java:101-122 | the new state is the decided one; the trace grows by exactly the events of the decision; for any hack other than AntiHunger itself, AntiHunger ends up off when the request turns NoFall on and is left as it was otherwise |
| Hacks.Hack.Commit | src/main/java/net/wurstclient/hack/Hack.java:110-121 | the state is the requested one, stored before the hook runs (the hook requires it), and the trace grows by the committed events in order; the hack-list update reports the stored state |
| Hacks.Hack.RunHook | src/main/java/net/wurstclient/hack/Hack.java:115-118 | called only once the new state is stored; the enable hook runs iff the new state is on, and the trace grows by its events |
| Hacks.Hack.OnEnable | src/main/java/net/wurstclient/hacks/NoFallHack.java:48-52 | NoFall's enable hook turns AntiHunger off through its own transition, then registers for updates |
| Hacks.Hack.OnDisable | src/main/java/net/wurstclient/hacks/NoFallHack.java:54-58 | NoFall's disable hook unregisters from updates |
| Hacks.Hack.DoPrimaryAction | src/main/java/net/wurstclient/hack/Hack.java:131-134 | the primary action is never a no-op request; it has the effect of requesting the opposite state, and AntiHunger ends up off when this turns NoFall on and is left as it was otherwise |
| Hacks.Hack.OnUpdate | src/main/java/net/wurstclient/hacks/NoFallHack.java:60-80 | one on-ground packet is sent iff the decision table says so, and nothing else happens |
| Hacks.EnableNoFallWithAntiHunger | src/main/java/net/wurstclient/hacks/NoFallHack.java:48-52 | turning NoFall on while AntiHunger is on emits, in order: NoFall's list update, its enable hook, AntiHunger's list update, disable hook and save, NoFall's registration, and NoFall's save; the action offered is then "Disable" |
| Hacks.NoFallHudInCreative | src/main/java/net/wurstclient/hacks/NoFallHack.java:41-42 | a new NoFall is shown as "NoFall (paused)" to a creative player |
| Hacks.NoFallEnableEvents | src/main/java/net/wurstclient/hack/Hack.java:110-121 | the events of that scenario, as a value |
| Hacks.NoFallEnableHook | src/main/java/net/wurstclient/hacks/NoFallHack.java:48-52 | NoFall's enable hook with AntiHunger on: the call, AntiHunger's whole disable, then the registration |
| Hacks.AntiHungerOffExample | src/main/java/net/wurstclient/hacks/NoFallHack.java:50 | turning a saved AntiHunger off updates the list, calls its disable hook and saves |

## Left out

- Case mapping is ASCII only. In Java, `toLowerCase()` follows full Unicode rules and the JVM's default locale (under a Turkish locale "I" becomes a dotless "ı", so the description key of a name with "I" depends on the locale), and `equalsIgnoreCase` compares per char in both cases.
- `Objects.requireNonNull(name)` at Hack.java:38 is not modelled, because a `string` here cannot be null.
- The constructor's `addPossibleKeybind` and `addSetting` calls are not modelled. They belong to the feature and settings registries.
- `getDescription` (`WURST.translate`) is left out. Translation is a foreign lookup; only the description key is modelled.
- `setCategory` is not modelled as an operation. The category is set once, in NoFall's constructor, and `Movement` is the only category value modelled.
- TooManyHax's blocking rule (`isBlocked`) is outside this model, so it is modelled as the set of blocked hack names held by the client.
- The HUD hack list's `updateState` and `saveEnabledHax` are modelled as events on the client's trace, not as implementations.
- Hooks of hacks other than NoFall are modelled as recording their call and nothing else. In particular, AntiHunger's own hooks are not part of this model.
- `Hacks.Hack.Commit` and `Hacks.Hack.RunHook` are the committed part and the hook dispatch of `setEnabled` (lines 110-121 and 115-118). They are split out as helpers, not separate source methods.
- Event-bus registration and packet sending in NoFall are recorded as trace events. The update listener is not invoked by the model.
- `onUpdate` with no player would throw a NullPointerException in the source. `Hacks.Hack.OnUpdate` takes a player, so that case is not modelled.
- The velocity test `getVelocity().y < -0.5` is floating point. It is the boolean `fallingFast` of a player.
- `super.keyPressed`'s return value and the `Screen` superclass are not modelled. Switching back to the previous screen is the `ShowPrevScreen` call.
- `InputUtil.fromKeyCode(...).getTranslationKey()` is a game lookup. It is a function parameter from key code and scan code to a string.
- Screen layout and rendering, the keybind list, keybind storage and profiles, and IMinecraftClient are not part of this model.
