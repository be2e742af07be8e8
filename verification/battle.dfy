/**
 The action stages of components/BattleStage.tsx: how the current phase is
 read as stage 1, 2 or 3, which board a card is aimed at in each stage,
 when skipping and re-targeting are offered, the select / aim / confirm
 protocol that turns a chance card into a play, and the coin-toss spinner.
 The phase itself is an input: the machine that advances it is not part of
 this model.
 */
module Battle {
  import opened Types

  /** The round's first player ("A") or second player ("B"). */
  datatype Side = A | B

  datatype Stage = Stage1 | Stage2 | Stage3

  /** The game phases (`GamePhase`); `Action(s, k)` is `s_ACTION_k`. */
  datatype Phase =
    | Setup | CoinToss
    | Draw(drawSide: Side) | Assemble(assembleSide: Side) | Wiring(wiringSide: Side)
    | JointDrawAnimation
    | Action(side: Side, stage: Stage)
    | RoundSummary | GameOver

  /** `isAction1`, `isAction2`, `isAction3`. */
  predicate IsAction1(p: Phase) { p == Action(A, Stage1) || p == Action(B, Stage1) }
  predicate IsAction2(p: Phase) { p == Action(A, Stage2) || p == Action(B, Stage2) }
  predicate IsAction3(p: Phase) { p == Action(A, Stage3) || p == Action(B, Stage3) }

  /** Both players' action phases of stage k are classified as stage k, no
      phase is in two stages, and only action phases are in any. */
  lemma StageClassification(p: Phase)
    ensures IsAction1(p) <==> p.Action? && p.stage == Stage1
    ensures IsAction2(p) <==> p.Action? && p.stage == Stage2
    ensures IsAction3(p) <==> p.Action? && p.stage == Stage3
    ensures !(IsAction1(p) && IsAction2(p)) && !(IsAction1(p) && IsAction3(p)) && !(IsAction2(p) && IsAction3(p))
    ensures p.Action? <==> IsAction1(p) || IsAction2(p) || IsAction3(p)
  {
    if p.Action? {
      assert p == Action(p.side, p.stage);
      match p.side {
        case A =>
        case B =>
      }
    }
  }

  /** A chance card: its effect and, for a swap card, the metal it carries. */
  datatype Card = Card(id: string, effect: SabotageType, payload: Option<Metal>)

  /** The aimed action awaiting confirmation, with the scope at aiming time. */
  datatype Pending = Pending(action: SabotageAction, scope: Scope)

  /** The stage screen's local state. */
  datatype Ui = Ui(selected: Option<Card>, pending: Option<Pending>, showWarning: bool, scope: Scope)

  /** What the stage screen reports to the game. */
  datatype Output = Play(card: Card, data: Pending) | SkipStage

  /** The scope a stage imposes: stage 1 attacks the opponent, stage 2 buffs
      oneself, stage 3 leaves the choice to the player. */
  function ForcedScope(p: Phase): (s: Option<Scope>)
    ensures s.Some? <==> IsAction1(p) || IsAction2(p)
  {
    if IsAction1(p) then Some(OpponentScope)
    else if IsAction2(p) then Some(SelfScope)
    else None
  }

  /** The effect run on entering a phase: stage 1 sets the scope to
      OPPONENT, stage 2 to SELF, and stage 3 resets it to OPPONENT only when
      no card is selected. */
  function EnterPhase(p: Phase, ui: Ui): (r: Ui)
    ensures r.selected == ui.selected && r.pending == ui.pending && r.showWarning == ui.showWarning
    ensures ForcedScope(p).Some? ==> r.scope == ForcedScope(p).value
    ensures IsAction3(p) && ui.selected.None? ==> r.scope == OpponentScope
    ensures !p.Action? || (IsAction3(p) && ui.selected.Some?) ==> r.scope == ui.scope
  {
    var s1 := if IsAction1(p) then OpponentScope else ui.scope;
    var s2 := if IsAction2(p) then SelfScope else s1;
    var s3 := if IsAction3(p) && ui.selected.None? then OpponentScope else s2;
    ui.(scope := s3)
  }

  /** `targetTeam`: the board the card will act on. */
  function TargetTeam<T>(scope: Scope, active: T, opponent: T): (t: T)
    ensures scope == OpponentScope ==> t == opponent
    ensures scope == SelfScope ==> t == active
  {
    if scope == OpponentScope then opponent else active
  }

  /** The target is the opponent exactly when the scope is OPPONENT. */
  lemma TargetIsOpponentIff<T>(scope: Scope, active: T, opponent: T)
    requires active != opponent
    ensures TargetTeam(scope, active, opponent) == opponent <==> scope == OpponentScope
  {
  }

  /** The skip button is shown only in stage 3. */
  predicate SkipOffered(p: Phase) {
    IsAction3(p)
  }

  /** The target toggle is shown only in stage 3 before a card is chosen. */
  predicate ScopeToggleOffered(p: Phase, ui: Ui) {
    IsAction3(p) && ui.selected.None?
  }

  /** The "change strategy" button that drops the chosen card: stage 3 only. */
  predicate DeselectOffered(p: Phase, ui: Ui) {
    IsAction3(p) && ui.selected.Some?
  }

  /** `handleSabotageAction`: with no chosen card the click is ignored;
      otherwise the action is recorded with the current scope and the
      confirmation dialog opens. */
  function HandleSabotageAction(ui: Ui, a: SabotageAction): (r: Ui)
    ensures ui.selected.None? ==> r == ui
    ensures ui.selected.Some? ==>
      r.pending == Some(Pending(a, ui.scope)) && r.showWarning
      && r.selected == ui.selected && r.scope == ui.scope
  {
    if ui.selected.None? then ui
    else ui.(pending := Some(Pending(a, ui.scope)), showWarning := true)
  }

  /** `confirmAction`: plays the chosen card with the recorded action when
      both exist, then clears card, action and dialog; otherwise nothing. */
  function ConfirmAction(ui: Ui): (r: (Ui, Option<Output>))
    ensures r.1.Some? <==> ui.selected.Some? && ui.pending.Some?
    ensures r.1.Some? ==>
      r.1.value == Play(ui.selected.value, ui.pending.value)
      && r.0 == ui.(selected := None, pending := None, showWarning := false)
    ensures r.1.None? ==> r.0 == ui
  {
    if ui.selected.Some? && ui.pending.Some? then
      (ui.(selected := None, pending := None, showWarning := false), Some(Play(ui.selected.value, ui.pending.value)))
    else (ui, None)
  }

  /** The dialog's cancel button: hide the dialog, play nothing. */
  function CancelWarning(ui: Ui): (r: Ui)
    ensures r.selected == ui.selected && r.pending == ui.pending && r.scope == ui.scope
    ensures !r.showWarning
  {
    ui.(showWarning := false)
  }

  /** Choosing a card, aiming it and confirming plays exactly that card,
      aimed where the scope pointed when it was aimed, and leaves the
      screen with nothing chosen or pending. */
  lemma SelectAimConfirm(ui: Ui, c: Card, a: SabotageAction)
    ensures var aimed := HandleSabotageAction(ui.(selected := Some(c)), a);
      ConfirmAction(aimed)
      == (ui.(selected := None, pending := None, showWarning := false), Some(Play(c, Pending(a, ui.scope))))
  {
  }

  // ---------------------------------------------------------------------
  // The screen as a whole

  /** A gesture on the action screen. */
  datatype Event =
    | SelectCard(card: Card)
    | Deselect
    | ChooseScope(scope: Scope)
    | Aim(action: SabotageAction)
    | Confirm
    | Cancel
    | Skip

  /** One gesture, as the screen handles it. While the confirmation dialog
      is open it covers the whole screen, so only its own two buttons
      respond. Otherwise, buttons that the screen does not show in the
      current state do nothing: the target toggle, the deselect button and
      skip outside stage 3. Skip reports the skip and leaves the screen's
      state as it is, including a chosen card. */
  function StepAsWritten(p: Phase, ui: Ui, e: Event): (r: (Ui, Option<Output>))
    ensures r.1 == Some(SkipStage) ==> SkipOffered(p) && !ui.showWarning
    ensures r.0.scope != ui.scope ==> ScopeToggleOffered(p, ui) && !ui.showWarning
    ensures ui.showWarning && !e.Confirm? && !e.Cancel? ==> r == (ui, None)
    ensures r.1.Some? && r.1.value.Play? ==> e.Confirm? && ui.showWarning
  {
    if ui.showWarning then
      match e
      case Confirm => ConfirmAction(ui)
      case Cancel => (CancelWarning(ui), None)
      case _ => (ui, None)
    else
      match e
      case SelectCard(c) => (ui.(selected := Some(c)), None)
      case Deselect => (if DeselectOffered(p, ui) then ui.(selected := None) else ui, None)
      case ChooseScope(s) => (if ScopeToggleOffered(p, ui) then ui.(scope := s) else ui, None)
      case Aim(a) => (HandleSabotageAction(ui, a), None)
      case Confirm => (ui, None)
      case Cancel => (ui, None)
      case Skip => (ui, if SkipOffered(p) then Some(SkipStage) else None)
  }

  /** One gesture, with skipping corrected to end the turn the way a play
      does: the chosen card, the aimed action and the dialog are dropped. */
  function Step(p: Phase, ui: Ui, e: Event): (r: (Ui, Option<Output>))
    ensures r.1 == Some(SkipStage) <==> e.Skip? && SkipOffered(p) && !ui.showWarning
    ensures r.1 == Some(SkipStage) ==> r.0.selected.None? && r.0.pending.None? && !r.0.showWarning
    ensures r.0.scope != ui.scope ==> ScopeToggleOffered(p, ui) && !ui.showWarning
    ensures !e.Skip? ==> r == StepAsWritten(p, ui, e)
  {
    if e.Skip? && SkipOffered(p) && !ui.showWarning then
      (ui.(selected := None, pending := None, showWarning := false), Some(SkipStage))
    else StepAsWritten(p, ui, e)
  }

  /** While the dialog is open nothing but its two buttons has any effect,
      and the card it plays is the one chosen when it opened. */
  lemma {:induction false} DialogBlocksScreen(p: Phase, ui: Ui, es: seq<Event>)
    requires ui.showWarning
    requires forall k :: 0 <= k < |es| ==> !es[k].Confirm? && !es[k].Cancel?
    ensures Run(p, ui, es) == (ui, [])
    decreases |es|
  {
    if es != [] {
      DialogBlocksScreen(p, ui, es[1..]);
    }
  }

  /** As written, a card the first player chooses in stage 3 and then skips
      past stays chosen into the second player's stage-3 turn, still aimed
      where the first player pointed it, and the second player can play it. */
  lemma SkippedCardCarriesOver(c: Card, a: SabotageAction)
    ensures var ui0 := Ui(Some(c), None, false, SelfScope);
      var (u1, o1) := StepAsWritten(Action(A, Stage3), ui0, Skip);
      var u2 := EnterPhase(Action(B, Stage3), u1);
      var (u3, _) := StepAsWritten(Action(B, Stage3), u2, Aim(a));
      && o1 == Some(SkipStage)
      && u2.selected == Some(c) && u2.scope == SelfScope
      && StepAsWritten(Action(B, Stage3), u3, Confirm).1 == Some(Play(c, Pending(a, SelfScope)))
  {
  }

  /** Corrected: after a skip the next action turn starts with no card
      chosen, nothing aimed, and, in stage 3, the target reset to the
      opponent; nothing can be confirmed before a new card is chosen. */
  lemma SkipEndsTurn(p: Phase, next: Phase, ui: Ui)
    requires SkipOffered(p) && next.Action?
    ensures Step(p, ui, Skip).1 == Some(SkipStage) <==> !ui.showWarning
    ensures Step(p, ui, Skip).1 == Some(SkipStage) ==>
      var u := EnterPhase(next, Step(p, ui, Skip).0);
      && u.selected.None? && u.pending.None?
      && (IsAction3(next) ==> u.scope == OpponentScope)
      && Step(next, u, Confirm).1.None?
      && forall a :: Step(next, u, Aim(a)).0 == u
  {
  }

  /** Cancelling the dialog plays nothing and keeps card, action and scope,
      and a confirm press right after it plays nothing either: the card
      must be aimed again first. */
  lemma CancelPlaysNothing(p: Phase, ui: Ui)
    ensures var (u1, o1) := Step(p, ui, Cancel);
      o1.None? && u1.selected == ui.selected && u1.pending == ui.pending && u1.scope == ui.scope
      && Step(p, u1, Confirm).1.None?
  {
  }

  /** A sequence of gestures within one phase, with everything reported. */
  function Run(p: Phase, ui: Ui, es: seq<Event>): (r: (Ui, seq<Output>))
    ensures |r.1| <= |es|
    ensures SkipStage in r.1 ==> SkipOffered(p)
    decreases |es|
  {
    if es == [] then (ui, [])
    else
      var (ui1, out) := Step(p, ui, es[0]);
      var (ui2, outs) := Run(p, ui1, es[1..]);
      (ui2, (if out.Some? then [out.value] else []) + outs)
  }

  /** In stages 1 and 2, once the phase is entered with nothing pending,
      every card played during any sequence of gestures is aimed with the
      stage's forced scope, the scope never moves, and the stage cannot be
      skipped. */
  lemma {:induction false} ForcedStagesLockTarget(p: Phase, ui: Ui, es: seq<Event>)
    requires ForcedScope(p).Some?
    requires ui.scope == ForcedScope(p).value
    requires ui.pending.Some? ==> ui.pending.value.scope == ForcedScope(p).value
    ensures Run(p, ui, es).0.scope == ForcedScope(p).value
    ensures forall o :: o in Run(p, ui, es).1 ==> o.Play? && o.data.scope == ForcedScope(p).value
    decreases |es|
  {
    if es != [] {
      var (ui1, out) := Step(p, ui, es[0]);
      ForcedStagesLockTarget(p, ui1, es[1..]);
    }
  }

  /** Entering stage 1 or 2 from the screen's state after a play (nothing
      pending) meets the conditions of `ForcedStagesLockTarget`. */
  lemma EnterForcedStage(p: Phase, ui: Ui)
    requires ForcedScope(p).Some? && ui.pending.None?
    ensures var u := EnterPhase(p, ui);
      u.scope == ForcedScope(p).value && u.pending.None?
  {
  }

  // ---------------------------------------------------------------------
  // Coin toss

  /** The spinner: whether it is turning and the winner once it stopped. */
  datatype Spinner = Spinner(spinning: bool, winner: Option<nat>)

  /** `startSpin`, with `r` the value of `Math.random()`: refuses when
      spinning or already decided; otherwise starts turning and returns the
      winner index the delayed callbacks will publish. */
  function StartSpin(s: Spinner, r: real): (res: (Spinner, Option<nat>))
    ensures s.spinning || s.winner.Some? ==> res == (s, None)
    ensures !s.spinning && s.winner.None? ==>
      res.0 == Spinner(true, None) && res.1.Some? && res.1.value in {0, 1}
    ensures res.1 == Some(1) <==> !s.spinning && s.winner.None? && r > 0.5
  {
    if s.spinning || s.winner.Some? then (s, None)
    else (Spinner(true, None), Some(if r > 0.5 then 1 else 0))
  }

  /** The first timer: the spinner stops on the drawn winner. */
  function SpinStops(s: Spinner, w: nat): (r: Spinner)
    ensures !r.spinning && r.winner == Some(w)
  {
    Spinner(false, Some(w))
  }

  /** The spinner can be started only once: a second press, during or
      after the spin, neither restarts it nor draws another winner. */
  lemma SpinStartsOnce(s: Spinner, r1: real, r2: real, r3: real)
    ensures var (s1, w1) := StartSpin(s, r1);
      StartSpin(s1, r2) == (s1, None)
      && (w1.Some? ==> StartSpin(SpinStops(s1, w1.value), r3).1.None?)
  {
  }
}
