/**
 * A hack: a feature the user turns on and off. Turning it on or off goes
 * through one guarded transition that may be vetoed by the TooManyHax
 * policy and that, once committed, updates the HUD hack list, runs the
 * hack's enable or disable hook and saves the set of enabled hacks.
 *
 * The side effects on the rest of the client (hack list, hooks, saving,
 * event listeners, packets) are recorded, in order, on the client's trace.
 */
module Hacks {
  import opened Options
  import opened Strings
  import NoFall

  /**
   * The hacks whose class the transition or this model singles out; every
   * other hack is `PlainHack`, whose hooks do nothing beyond being called.
   */
  datatype Kind = PlainHack | NoFallHack | AntiHungerHack | TooManyHaxHack | NavigatorHack | ClickGuiHack

  /** The one category a hack of this model is put in. */
  datatype Category = Movement

  /** What a state change does outside the hack itself. */
  datatype Event =
    | HackListUpdate(hack: string, enabled: bool)
    | OnEnableCalled(hack: string)
    | OnDisableCalled(hack: string)
    | SaveEnabledHax
    | AddUpdateListener(hack: string)
    | RemoveUpdateListener(hack: string)
    | SendOnGround(onGround: bool)

  /** How a request to set the state ends. */
  datatype Outcome = Unchanged | Vetoed | Committed

  /** AntiHunger as NoFall's enable hook finds it. */
  datatype Peer = Peer(name: string, enabled: bool, stateSaved: bool)

  const DESCRIPTION_PREFIX := "description.wurst.hack."

  /** The translation key of a hack's description: the prefix and the lower-cased name. */
  function DescriptionKey(name: string): (key: string)
    ensures |key| == |DESCRIPTION_PREFIX| + |name|
    ensures key[..|DESCRIPTION_PREFIX|] == DESCRIPTION_PREFIX
    ensures forall i :: |DESCRIPTION_PREFIX| <= i < |key| ==> !('A' <= key[i] <= 'Z')
    ensures forall i :: 0 <= i < |name| ==> key[|DESCRIPTION_PREFIX| + i] == LowerChar(name[i])
  {
    DESCRIPTION_PREFIX + ToLower(name)
  }

  /** Two hacks share a description key exactly when their names differ only in case. */
  lemma DescriptionKeyIgnoresCase(a: string, b: string)
    ensures DescriptionKey(a) == DescriptionKey(b) <==> EqualsIgnoreCase(a, b)
  {
    if DescriptionKey(a) == DescriptionKey(b) {
      assert DescriptionKey(a)[|DESCRIPTION_PREFIX|..] == ToLower(a);
      assert DescriptionKey(b)[|DESCRIPTION_PREFIX|..] == ToLower(b);
    }
  }

  /** Lower-casing a name first does not change its description key. */
  lemma DescriptionKeyOfLowered(name: string)
    ensures DescriptionKey(ToLower(name)) == DescriptionKey(name)
  {
    ToLowerIdempotent(name);
  }

  /**
   * The decision of `setEnabled`: a request for the current state does
   * nothing; a request to turn on is vetoed while TooManyHax is enabled
   * and blocks the hack; anything else is committed.
   */
  function Decide(current: bool, requested: bool, policyEnabled: bool, blocked: bool): (o: Outcome)
    ensures o == Unchanged <==> current == requested
    ensures o == Vetoed <==> current != requested && requested && policyEnabled && blocked
    ensures o == Vetoed ==> !current && requested
  {
    if current == requested then Unchanged
    else if requested && policyEnabled && blocked then Vetoed
    else Committed
  }

  /** The state after a request. */
  function Next(current: bool, requested: bool, policyEnabled: bool, blocked: bool): (next: bool)
    ensures Decide(current, requested, policyEnabled, blocked) != Vetoed ==> next == requested
    ensures Decide(current, requested, policyEnabled, blocked) == Vetoed ==> next == current == false
    ensures Decide(next, requested, policyEnabled, blocked) != Committed
  {
    if Decide(current, requested, policyEnabled, blocked) == Committed then requested else current
  }

  /** TooManyHax is never vetoed by itself: it can only be turned on while it is off. */
  lemma TooManyHaxNeverVetoesItself(current: bool, requested: bool, blocked: bool)
    ensures Decide(current, requested, current, blocked) != Vetoed
  {
  }

  /** The primary action offered for a hack in the given state. */
  function PrimaryAction(enabled: bool): (action: string)
    ensures action == "Disable" <==> enabled
    ensures action == "Enable" <==> !enabled
  {
    if enabled then "Disable" else "Enable"
  }

  /** Two primary actions that are not vetoed bring a hack back to its state. */
  lemma ToggleTwiceRestores(current: bool, policy1: bool, blocked1: bool, policy2: bool, blocked2: bool)
    requires Decide(current, !current, policy1, blocked1) != Vetoed
    requires var next := Next(current, !current, policy1, blocked1);
             Decide(next, !next, policy2, blocked2) != Vetoed
    ensures var next := Next(current, !current, policy1, blocked1);
            Next(next, !next, policy2, blocked2) == current
  {
  }

  /** The name shown in the HUD before any status: the trimmed alias, or the name when that is empty. */
  function BaseName(alias: string, name: string): (base: string)
    ensures Trim(alias) != "" ==> base == Trim(alias)
    ensures Trim(alias) == "" ==> base == name
  {
    var trimmed := Trim(alias);
    if trimmed == "" then name else trimmed
  }

  /** `getRenderName`: the base name, followed by a space and the status when there is a non-empty one. */
  function RenderName(alias: string, name: string, status: Option<string>): (r: string)
    ensures var base := BaseName(alias, name);
            StartsWith(r, base) &&
            (status == None || status == Some("") ==> r == base) &&
            (status != None && status != Some("") ==> r[|base|..] == " " + status.value)
  {
    var base := BaseName(alias, name);
    if status == None || status.value == "" then base
    else
      var suffix := " " + status.value;
      StartsWithConcat(base, suffix);
      base + suffix
  }

  /** A non-empty status follows the base name after one space. */
  lemma RenderNameShowsStatus(alias: string, name: string, status: string)
    requires status != ""
    ensures RenderName(alias, name, Some(status)) == BaseName(alias, name) + " " + status
  {
    ConcatAssoc(BaseName(alias, name), " ", status);
  }

  /** An alias made only of blanks is ignored. */
  lemma BlankAliasShowsName(alias: string, name: string, status: Option<string>)
    requires AllBlank(alias)
    ensures RenderName(alias, name, status) == RenderName("", name, status)
  {
    TrimBlank(alias);
  }

  /** An alias without blanks at its ends is shown as it is. */
  lemma AliasShownAsIs(alias: string, name: string)
    requires alias != "" && !IsBlank(alias[0]) && !IsBlank(alias[|alias| - 1])
    ensures BaseName(alias, name) == alias
  {
    TrimUnpadded(alias);
  }

  /** A paused NoFall is shown as its base name followed by " (paused)". */
  lemma NoFallPausedRenderName(player: NoFall.Player, allowElytra: bool)
    requires (player.fallFlying && !allowElytra) || player.creative
    ensures RenderName("", NoFall.NAME, NoFall.StatusInfo(Some(player), allowElytra)) == "NoFall (paused)"
  {
    TrimUnpadded("");
  }

  /** The hack list shows every hack except the two that open screens. */
  predicate InHackList(kind: Kind)
    ensures InHackList(kind) <==> kind !in {NavigatorHack, ClickGuiHack}
  {
    kind != NavigatorHack && kind != ClickGuiHack
  }

  /** Hooks of a higher rank may call `setEnabled` on hacks of a lower rank. */
  function HookRank(kind: Kind): nat {
    if kind == NoFallHack then 1 else 0
  }

  function Hook(name: string, enabled: bool): Event {
    if enabled then OnEnableCalled(name) else OnDisableCalled(name)
  }

  /**
   * What a committed change emits, in order: the hack-list update (for
   * listed hacks), the hook's events, and the save of the enabled hacks
   * (for state-saved hacks).
   */
  function CommitEvents(name: string, enabled: bool, listed: bool, saved: bool, hook: seq<Event>): (events: seq<Event>)
    ensures |events| == |hook| + (if listed then 1 else 0) + (if saved then 1 else 0)
    ensures listed ==> events[0] == HackListUpdate(name, enabled)
    ensures events[(if listed then 1 else 0)..|events| - (if saved then 1 else 0)] == hook
    ensures saved ==> events[|events| - 1] == SaveEnabledHax
  {
    (if listed then [HackListUpdate(name, enabled)] else []) + hook + (if saved then [SaveEnabledHax] else [])
  }

  /** What turning AntiHunger off from NoFall's enable hook emits: nothing when it is already off. */
  function AntiHungerOffEvents(antiHunger: Peer): (events: seq<Event>)
    ensures events == [] <==> !antiHunger.enabled
    ensures forall i :: 0 <= i < |events| ==>
              events[i] in {HackListUpdate(antiHunger.name, false), OnDisableCalled(antiHunger.name), SaveEnabledHax}
  {
    if antiHunger.enabled
    then CommitEvents(antiHunger.name, false, InHackList(AntiHungerHack), antiHunger.stateSaved, [OnDisableCalled(antiHunger.name)])
    else []
  }

  /** Turning AntiHunger off through `setEnabled` emits exactly its off events. */
  lemma AntiHungerOffIsSetEnabled(antiHunger: Peer, policyEnabled: bool, blocked: bool, peer: Peer)
    ensures SetEnabledEvents(AntiHungerHack, antiHunger.name, antiHunger.stateSaved, antiHunger.enabled, false, policyEnabled, blocked, peer)
            == AntiHungerOffEvents(antiHunger)
  {
  }

  /** The enable hook's events: the call, then for NoFall AntiHunger turned off and the update listener added. */
  function EnableHookEvents(kind: Kind, name: string, antiHunger: Peer): (events: seq<Event>)
    ensures |events| > 0 && events[0] == OnEnableCalled(name)
    ensures kind != NoFallHack ==> events == [OnEnableCalled(name)]
    ensures kind == NoFallHack ==> events[|events| - 1] == AddUpdateListener(name)
  {
    [OnEnableCalled(name)] + if kind == NoFallHack then AntiHungerOffEvents(antiHunger) + [AddUpdateListener(name)] else []
  }

  /** The disable hook's events: the call, then for NoFall the update listener removed. */
  function DisableHookEvents(kind: Kind, name: string): (events: seq<Event>)
    ensures |events| > 0 && events[0] == OnDisableCalled(name)
    ensures kind != NoFallHack ==> events == [OnDisableCalled(name)]
    ensures kind == NoFallHack ==> events[|events| - 1] == RemoveUpdateListener(name)
  {
    [OnDisableCalled(name)] + if kind == NoFallHack then [RemoveUpdateListener(name)] else []
  }

  function HookEvents(kind: Kind, name: string, enabled: bool, antiHunger: Peer): (events: seq<Event>)
    ensures |events| > 0 && events[0] == Hook(name, enabled)
    ensures events[|events| - 1] != SaveEnabledHax
  {
    if enabled then EnableHookEvents(kind, name, antiHunger) else DisableHookEvents(kind, name)
  }

  /** Everything one `setEnabled` call emits. */
  function SetEnabledEvents(kind: Kind, name: string, saved: bool, current: bool, requested: bool,
                            policyEnabled: bool, blocked: bool, antiHunger: Peer): (events: seq<Event>)
    ensures events == [] <==> Decide(current, requested, policyEnabled, blocked) != Committed
  {
    if Decide(current, requested, policyEnabled, blocked) == Committed
    then CommitEvents(name, requested, InHackList(kind), saved, HookEvents(kind, name, requested, antiHunger))
    else []
  }

  lemma SetEnabledEventsCommitted(kind: Kind, name: string, saved: bool, current: bool, requested: bool,
                                  policyEnabled: bool, blocked: bool, antiHunger: Peer)
    requires Decide(current, requested, policyEnabled, blocked) == Committed
    ensures SetEnabledEvents(kind, name, saved, current, requested, policyEnabled, blocked, antiHunger)
         == (if InHackList(kind) then [HackListUpdate(name, requested)] else [])
            + HookEvents(kind, name, requested, antiHunger)
            + (if saved then [SaveEnabledHax] else [])
  {
  }

  /** A committed change emits the hack-list update iff listed, then the hook, and ends with the save iff saved. */
  lemma CommitOrder(kind: Kind, name: string, enabled: bool, saved: bool, antiHunger: Peer)
    ensures var events := CommitEvents(name, enabled, InHackList(kind), saved, HookEvents(kind, name, enabled, antiHunger));
            && (events[0] == HackListUpdate(name, enabled) <==> InHackList(kind))
            && events[if InHackList(kind) then 1 else 0] == Hook(name, enabled)
            && (events[|events| - 1] == SaveEnabledHax <==> saved)
  {
    var hook := HookEvents(kind, name, enabled, antiHunger);
    var events := CommitEvents(name, enabled, InHackList(kind), saved, hook);
    var lo := if InHackList(kind) then 1 else 0;
    assert events[lo] == hook[0] by {
      assert events[lo..|events| - (if saved then 1 else 0)] == hook;
    }
    if !saved {
      assert events[|events| - 1] == hook[|hook| - 1] by {
        assert events[lo..|events|] == hook;
      }
    }
  }

  /** The enable and disable hook events of one hack, in order. */
  function HooksOf(events: seq<Event>, name: string): (hooks: seq<Event>)
    ensures |hooks| <= |events|
    ensures forall i :: 0 <= i < |hooks| ==> hooks[i] == OnEnableCalled(name) || hooks[i] == OnDisableCalled(name)
  {
    if events == [] then []
    else (if events[0] == OnEnableCalled(name) || events[0] == OnDisableCalled(name) then [events[0]] else [])
         + HooksOf(events[1..], name)
  }

  lemma {:induction false} HooksOfAppend(a: seq<Event>, b: seq<Event>, name: string)
    ensures HooksOf(a + b, name) == HooksOf(a, name) + HooksOf(b, name)
  {
    if a == [] {
      assert a + b == b;
    } else {
      assert (a + b)[1..] == a[1..] + b;
      HooksOfAppend(a[1..], b, name);
    }
  }

  /** Each hook runs itself once, and AntiHunger's events hold no hook call of another hack. */
  lemma HookEventsCallOnce(kind: Kind, name: string, enabled: bool, antiHunger: Peer)
    requires name != antiHunger.name
    ensures HooksOf(HookEvents(kind, name, enabled, antiHunger), name) == [Hook(name, enabled)]
  {
    var rest: seq<Event> :=
      if kind != NoFallHack then []
      else if enabled then AntiHungerOffEvents(antiHunger) + [AddUpdateListener(name)]
      else [RemoveUpdateListener(name)];
    assert HookEvents(kind, name, enabled, antiHunger) == [Hook(name, enabled)] + rest;
    assert HooksOf(rest, name) == [] by {
      forall i | 0 <= i < |rest| ensures rest[i] != OnEnableCalled(name) && rest[i] != OnDisableCalled(name) {
        if enabled && kind == NoFallHack && i < |rest| - 1 {
          assert rest[i] == AntiHungerOffEvents(antiHunger)[i];
        }
      }
      NoHooks(rest, name);
    }
    HooksOfAppend([Hook(name, enabled)], rest, name);
  }

  /** A committed change runs exactly one hook of the hack: enable iff the new state is on. */
  lemma ExactlyOneHook(kind: Kind, name: string, enabled: bool, saved: bool, antiHunger: Peer)
    requires name != antiHunger.name
    ensures HooksOf(CommitEvents(name, enabled, InHackList(kind), saved, HookEvents(kind, name, enabled, antiHunger)), name)
         == [Hook(name, enabled)]
  {
    HookEventsCallOnce(kind, name, enabled, antiHunger);
    CommitAddsNoHook(name, enabled, InHackList(kind), saved, HookEvents(kind, name, enabled, antiHunger));
  }

  /** The hack-list update and the save around a hook call no hook. */
  lemma CommitAddsNoHook(name: string, enabled: bool, listed: bool, saved: bool, hook: seq<Event>)
    ensures HooksOf(CommitEvents(name, enabled, listed, saved, hook), name) == HooksOf(hook, name)
  {
    var before: seq<Event> := if listed then [HackListUpdate(name, enabled)] else [];
    var after: seq<Event> := if saved then [SaveEnabledHax] else [];
    assert HooksOf(before, name) == [] by {
      if listed {
        assert before[1..] == [];
      }
    }
    assert HooksOf(after, name) == [] by {
      if saved {
        assert after[1..] == [];
      }
    }
    assert HooksOf(before + hook + after, name) == HooksOf(before, name) + HooksOf(hook, name) + HooksOf(after, name) by {
      HooksOfAppend(before, hook, name);
      HooksOfAppend(before + hook, after, name);
    }
  }

  lemma {:induction false} NoHooks(events: seq<Event>, name: string)
    requires forall i :: 0 <= i < |events| ==> events[i] != OnEnableCalled(name) && events[i] != OnDisableCalled(name)
    ensures HooksOf(events, name) == []
  {
    if events != [] {
      NoHooks(events[1..], name);
    }
  }

  /** Whether the last update-listener event of a hack registered it. */
  predicate ListenerRegistered(trace: seq<Event>, name: string) {
    if trace == [] then false
    else if trace[|trace| - 1] == AddUpdateListener(name) then true
    else if trace[|trace| - 1] == RemoveUpdateListener(name) then false
    else ListenerRegistered(trace[..|trace| - 1], name)
  }

  predicate NoListenerEvent(events: seq<Event>, name: string) {
    forall i :: 0 <= i < |events| ==> events[i] != AddUpdateListener(name) && events[i] != RemoveUpdateListener(name)
  }

  lemma {:induction false} ListenerUnaffected(trace: seq<Event>, events: seq<Event>, name: string)
    requires NoListenerEvent(events, name)
    ensures ListenerRegistered(trace + events, name) == ListenerRegistered(trace, name)
  {
    if events == [] {
      assert trace + events == trace;
    } else {
      var init := events[..|events| - 1];
      assert (trace + events)[..|trace + events| - 1] == trace + init;
      ListenerUnaffected(trace, init, name);
    }
  }

  /**
   * NoFall is registered for updates exactly while it is enabled: a
   * `setEnabled` call on it keeps that so, whatever it is asked and
   * whatever AntiHunger's state.
   */
  lemma ListenerFollowsState(trace: seq<Event>, name: string, saved: bool, current: bool, requested: bool,
                             policyEnabled: bool, blocked: bool, antiHunger: Peer)
    requires name != antiHunger.name
    requires ListenerRegistered(trace, name) == current
    ensures ListenerRegistered(trace + SetEnabledEvents(NoFallHack, name, saved, current, requested, policyEnabled, blocked, antiHunger), name)
         == Next(current, requested, policyEnabled, blocked)
  {
    var events := SetEnabledEvents(NoFallHack, name, saved, current, requested, policyEnabled, blocked, antiHunger);
    if Decide(current, requested, policyEnabled, blocked) != Committed {
      assert trace + events == trace;
    } else {
      var listener := if requested then AddUpdateListener(name) else RemoveUpdateListener(name);
      var mid: seq<Event> := if requested then AntiHungerOffEvents(antiHunger) else [];
      var listed := [HackListUpdate(name, requested)];
      var save: seq<Event> := if saved then [SaveEnabledHax] else [];
      var hook := HookEvents(NoFallHack, name, requested, antiHunger);
      assert hook == [Hook(name, requested)] + mid + [listener];
      var upTo := trace + listed + [Hook(name, requested)] + mid;
      assert trace + events == upTo + [listener] + save by {
        SetEnabledEventsCommitted(NoFallHack, name, saved, current, requested, policyEnabled, blocked, antiHunger);
        assert events == listed + hook + save;
        ConcatRegroup(trace, listed, hook, save);
        ConcatRegroup(trace + listed, [Hook(name, requested)], mid, [listener]);
      }
      assert NoListenerEvent(save, name);
      ListenerUnaffected(upTo + [listener], save, name);
      assert (upTo + [listener])[..|upTo + [listener]| - 1] == upTo;
    }
  }

  /** The client around the hacks: the two hacks the transition consults, the policy and the trace. */
  class WurstClient {
    const tooManyHax: Hack
    const antiHunger: Hack
    /** The hacks TooManyHax blocks, by name. */
    var blocked: set<string>
    var trace: seq<Event>

    predicate Valid() {
      tooManyHax.kind == TooManyHaxHack && antiHunger.kind == AntiHungerHack
    }

    constructor(tooManyHax: Hack, antiHunger: Hack, blocked: set<string>)
      requires tooManyHax.kind == TooManyHaxHack && antiHunger.kind == AntiHungerHack
      ensures Valid()
      ensures this.tooManyHax == tooManyHax && this.antiHunger == antiHunger
      ensures this.blocked == blocked && trace == []
    {
      this.tooManyHax := tooManyHax;
      this.antiHunger := antiHunger;
      this.blocked := blocked;
      trace := [];
    }
  }

  class Hack {
    const name: string
    const description: string
    const kind: Kind
    /** False for hacks marked as not keeping their state across restarts. */
    const stateSaved: bool
    var category: Option<Category>
    var enabled: bool
    /** The "Custom HUD name" setting. */
    var hudNameAlias: string
    /** NoFall's "Allow elytra" setting; no other hack reads it, and it stays at its default for them. */
    var allowElytra: bool

    constructor(name: string, kind: Kind, dontSaveState: bool)
      ensures this.name == name && this.kind == kind && stateSaved == !dontSaveState
      ensures description == DescriptionKey(name)
      ensures category == None && !enabled && hudNameAlias == ""
      ensures allowElytra == NoFall.ALLOW_ELYTRA_DEFAULT
    {
      this.name := name;
      this.kind := kind;
      stateSaved := !dontSaveState;
      description := DescriptionKey(name);
      category := None;
      enabled := false;
      hudNameAlias := "";
      allowElytra := NoFall.ALLOW_ELYTRA_DEFAULT;
    }

    /** NoFall as the client creates it. */
    constructor NoFallDefaults()
      ensures name == NoFall.NAME && kind == NoFallHack && stateSaved
      ensures description == "description.wurst.hack.nofall"
      ensures category == Some(Movement) && !enabled && hudNameAlias == "" && !allowElytra
    {
      name := NoFall.NAME;
      kind := NoFallHack;
      stateSaved := true;
      description := DescriptionKey(NoFall.NAME);
      category := Some(Movement);
      enabled := false;
      hudNameAlias := "";
      allowElytra := NoFall.ALLOW_ELYTRA_DEFAULT;
    }

    /** Status text for the HUD; only NoFall has one. */
    function GetStatusInfo(player: Option<NoFall.Player>): (status: Option<string>)
      reads this
      ensures kind != NoFallHack || player == None ==> status == None
      ensures status == None || status == Some(NoFall.PAUSED)
    {
      if kind == NoFallHack then NoFall.StatusInfo(player, allowElytra) else None
    }

    function GetRenderName(player: Option<NoFall.Player>): (r: string)
      reads this
      ensures kind != NoFallHack || player == None ==> r == BaseName(hudNameAlias, name)
      ensures StartsWith(r, BaseName(hudNameAlias, name))
      ensures GetStatusInfo(player) != None ==> r == BaseName(hudNameAlias, name) + " " + GetStatusInfo(player).value
    {
      var status := GetStatusInfo(player);
      if status == None then RenderName(hudNameAlias, name, status)
      else
        assert status.value != "" by {
          assert |NoFall.PAUSED| == 8;
        }
        RenderNameShowsStatus(hudNameAlias, name, status.value);
        RenderName(hudNameAlias, name, status)
    }

    function GetPrimaryAction(): (action: string)
      reads this
      ensures enabled ==> action == "Disable"
      ensures !enabled ==> action == "Enable"
    {
      PrimaryAction(enabled)
    }

    /** `setEnabled`: a request for the current state or a vetoed one does nothing; any other is committed. */
    method SetEnabled(w: WurstClient, requested: bool)
      requires w.Valid()
      modifies this`enabled, w`trace, w.antiHunger`enabled
      decreases HookRank(kind), 3
      ensures enabled == Next(old(enabled), requested, old(w.tooManyHax.enabled), name in w.blocked)
      ensures w.trace == old(w.trace)
                         + SetEnabledEvents(kind, name, stateSaved, old(enabled), requested, old(w.tooManyHax.enabled), name in w.blocked,
                                            Peer(w.antiHunger.name, old(w.antiHunger.enabled), w.antiHunger.stateSaved))
      ensures this != w.antiHunger ==>
                w.antiHunger.enabled
                == if kind == NoFallHack && Decide(old(enabled), requested, old(w.tooManyHax.enabled), name in w.blocked) == Committed && requested
                   then false else old(w.antiHunger.enabled)
    {
      if enabled == requested {
        return;
      }
      if requested && w.tooManyHax.enabled && name in w.blocked {
        return;
      }
      Commit(w, requested);
    }

    /**
     * The committed part of `setEnabled`: the new state is stored before
     * anything else, then the hack list is updated, the hook runs and the
     * enabled hacks are saved.
     */
    method Commit(w: WurstClient, requested: bool)
      requires w.Valid()
      modifies this`enabled, w`trace, w.antiHunger`enabled
      decreases HookRank(kind), 2
      ensures enabled == requested
      ensures w.trace == old(w.trace)
                         + CommitEvents(name, requested, InHackList(kind), stateSaved,
                                        HookEvents(kind, name, requested, Peer(w.antiHunger.name, old(w.antiHunger.enabled), w.antiHunger.stateSaved)))
      ensures this != w.antiHunger ==>
                w.antiHunger.enabled == if kind == NoFallHack && requested then false else old(w.antiHunger.enabled)
    {
      ghost var trace0 := w.trace;
      ghost var antiHunger := Peer(w.antiHunger.name, w.antiHunger.enabled, w.antiHunger.stateSaved);
      ghost var hook := HookEvents(kind, name, requested, antiHunger);
      enabled := requested;
      ghost var listed: seq<Event> := if InHackList(kind) then [HackListUpdate(name, requested)] else [];
      if !(kind == NavigatorHack || kind == ClickGuiHack) {
        w.trace := w.trace + [HackListUpdate(name, enabled)];
      }
      ghost var found := Peer(w.antiHunger.name, w.antiHunger.enabled, w.antiHunger.stateSaved);
      assert HookEvents(kind, name, requested, found) == hook by {
        if kind == NoFallHack {
          assert this != w.antiHunger;
          assert found == antiHunger;
        }
      }
      RunHook(w, requested);
      assert w.trace == trace0 + listed + hook;
      if stateSaved {
        w.trace := w.trace + [SaveEnabledHax];
      }
      ghost var save: seq<Event> := if stateSaved then [SaveEnabledHax] else [];
      assert w.trace == trace0 + (listed + hook + save) by {
        ConcatRegroup(trace0, listed, hook, save);
      }
    }

    /**
     * Runs the enable hook when the new state is on, the disable hook
     * otherwise; the new state is already stored when a hook runs.
     */
    method RunHook(w: WurstClient, on: bool)
      requires w.Valid() && enabled == on
      modifies w`trace, w.antiHunger`enabled
      decreases HookRank(kind), 1
      ensures w.trace == old(w.trace) + HookEvents(kind, name, on, Peer(w.antiHunger.name, old(w.antiHunger.enabled), w.antiHunger.stateSaved))
      ensures w.antiHunger.enabled == if kind == NoFallHack && on then false else old(w.antiHunger.enabled)
    {
      if on {
        OnEnable(w);
      } else {
        OnDisable(w);
      }
    }

    /** The enable hook; NoFall's turns AntiHunger off and starts listening for updates. */
    method OnEnable(w: WurstClient)
      requires w.Valid()
      modifies w`trace, w.antiHunger`enabled
      decreases HookRank(kind), 0
      ensures w.trace == old(w.trace) + EnableHookEvents(kind, name, Peer(w.antiHunger.name, old(w.antiHunger.enabled), w.antiHunger.stateSaved))
      ensures w.antiHunger.enabled == if kind == NoFallHack then false else old(w.antiHunger.enabled)
    {
      ghost var trace0 := w.trace;
      ghost var peer := Peer(w.antiHunger.name, w.antiHunger.enabled, w.antiHunger.stateSaved);
      w.trace := w.trace + [OnEnableCalled(name)];
      if kind == NoFallHack {
        ghost var trace1 := w.trace;
        ghost var policyEnabled := w.tooManyHax.enabled;
        ghost var blocked := w.antiHunger.name in w.blocked;
        w.antiHunger.SetEnabled(w, false);
        assert w.trace == trace1 + AntiHungerOffEvents(peer) by {
          AntiHungerOffIsSetEnabled(peer, policyEnabled, blocked, peer);
        }
        w.trace := w.trace + [AddUpdateListener(name)];
        ConcatRegroup(trace0, [OnEnableCalled(name)], AntiHungerOffEvents(peer), [AddUpdateListener(name)]);
      }
    }

    /** The disable hook; NoFall's stops listening for updates. */
    method OnDisable(w: WurstClient)
      requires w.Valid()
      modifies w`trace
      decreases HookRank(kind), 0
      ensures w.trace == old(w.trace) + DisableHookEvents(kind, name)
    {
      w.trace := w.trace + [OnDisableCalled(name)];
      if kind == NoFallHack {
        w.trace := w.trace + [RemoveUpdateListener(name)];
      }
    }

    /** `doPrimaryAction`: requests the opposite of the current state. */
    method DoPrimaryAction(w: WurstClient)
      requires w.Valid()
      modifies this`enabled, w`trace, w.antiHunger`enabled
      ensures Decide(old(enabled), !old(enabled), old(w.tooManyHax.enabled), name in w.blocked) != Unchanged
      ensures enabled == Next(old(enabled), !old(enabled), old(w.tooManyHax.enabled), name in w.blocked)
      ensures w.trace == old(w.trace)
                         + SetEnabledEvents(kind, name, stateSaved, old(enabled), !old(enabled), old(w.tooManyHax.enabled), name in w.blocked,
                                            Peer(w.antiHunger.name, old(w.antiHunger.enabled), w.antiHunger.stateSaved))
      ensures this != w.antiHunger ==>
                w.antiHunger.enabled
                == if kind == NoFallHack && Decide(old(enabled), !old(enabled), old(w.tooManyHax.enabled), name in w.blocked) == Committed && !old(enabled)
                   then false else old(w.antiHunger.enabled)
    {
      SetEnabled(w, !enabled);
    }

    /** NoFall's per-tick update: sends one on-ground packet when the decision says so. */
    method OnUpdate(w: WurstClient, player: NoFall.Player)
      requires kind == NoFallHack
      modifies w`trace
      ensures w.trace == old(w.trace) + if NoFall.SendsOnGroundPacket(player, allowElytra) then [SendOnGround(true)] else []
    {
      if player.creative {
        return;
      }
      var fallFlying := player.fallFlying;
      if fallFlying && !allowElytra {
        return;
      }
      if fallFlying && player.sneaking && !player.fallingFast {
        return;
      }
      w.trace := w.trace + [SendOnGround(true)];
    }
  }

  /** A client with nothing blocked, TooManyHax off and AntiHunger turned on. */
  method ClientWithAntiHungerOn() returns (w: WurstClient)
    ensures fresh(w) && fresh(w.antiHunger)
    ensures w.Valid() && w.blocked == {} && !w.tooManyHax.enabled
    ensures w.antiHunger.name == "AntiHunger" && w.antiHunger.enabled && w.antiHunger.stateSaved
  {
    var tooManyHax := new Hack("TooManyHax", TooManyHaxHack, false);
    var antiHunger := new Hack("AntiHunger", AntiHungerHack, false);
    w := new WurstClient(tooManyHax, antiHunger, {});
    antiHunger.SetEnabled(w, true);
  }

  /**
   * Turning NoFall on while AntiHunger is on: AntiHunger is turned off from
   * inside NoFall's enable hook, before NoFall starts listening for updates.
   */
  method EnableNoFallWithAntiHunger() returns (events: seq<Event>, action: string)
    ensures events == [HackListUpdate("NoFall", true), OnEnableCalled("NoFall"),
                       HackListUpdate("AntiHunger", false), OnDisableCalled("AntiHunger"), SaveEnabledHax,
                       AddUpdateListener("NoFall"), SaveEnabledHax]
    ensures action == "Disable"
  {
    var w := ClientWithAntiHungerOn();
    var noFall := new Hack.NoFallDefaults();
    var start := w.trace;
    noFall.SetEnabled(w, true);
    events := w.trace[|start|..];
    assert events == SetEnabledEvents(NoFallHack, "NoFall", true, false, true, false, false, Peer("AntiHunger", true, true));
    NoFallEnableEvents();
    action := noFall.GetPrimaryAction();
  }

  /** A freshly created NoFall is shown as paused to a player in creative mode. */
  method NoFallHudInCreative() returns (hud: string)
    ensures hud == "NoFall (paused)"
  {
    var noFall := new Hack.NoFallDefaults();
    var creative := NoFall.Player(true, false, false, false);
    hud := noFall.GetRenderName(Some(creative));
    NoFallPausedRenderName(creative, false);
  }

  /** The events of turning NoFall on while AntiHunger is on and nothing is blocked. */
  lemma NoFallEnableEvents()
    ensures SetEnabledEvents(NoFallHack, "NoFall", true, false, true, false, false, Peer("AntiHunger", true, true))
         == [HackListUpdate("NoFall", true), OnEnableCalled("NoFall"),
             HackListUpdate("AntiHunger", false), OnDisableCalled("AntiHunger"), SaveEnabledHax,
             AddUpdateListener("NoFall"), SaveEnabledHax]
  {
    var hook := [OnEnableCalled("NoFall"), HackListUpdate("AntiHunger", false), OnDisableCalled("AntiHunger"), SaveEnabledHax,
                 AddUpdateListener("NoFall")];
    assert Decide(false, true, false, false) == Committed;
    assert SetEnabledEvents(NoFallHack, "NoFall", true, false, true, false, false, Peer("AntiHunger", true, true))
        == [HackListUpdate("NoFall", true)] + hook + [SaveEnabledHax] by {
      NoFallEnableHook();
      SetEnabledEventsCommitted(NoFallHack, "NoFall", true, false, true, false, false, Peer("AntiHunger", true, true));
    }
  }

  /** NoFall's enable hook with AntiHunger on: the call, AntiHunger's whole disable, then the listener. */
  lemma NoFallEnableHook()
    ensures HookEvents(NoFallHack, "NoFall", true, Peer("AntiHunger", true, true))
         == [OnEnableCalled("NoFall"), HackListUpdate("AntiHunger", false), OnDisableCalled("AntiHunger"), SaveEnabledHax,
             AddUpdateListener("NoFall")]
  {
    AntiHungerOffExample();
  }

  /** Turning a saved AntiHunger off updates the hack list, calls its disable hook and saves. */
  lemma AntiHungerOffExample()
    ensures AntiHungerOffEvents(Peer("AntiHunger", true, true))
         == [HackListUpdate("AntiHunger", false), OnDisableCalled("AntiHunger"), SaveEnabledHax]
  {
  }
}
