/** The dialogue state machine: legal transitions, and the two side channels
    that bypass the transition table. */
module Dialogue {

  datatype State =
    | Idle
    | IntentDetected
    | SlotFilling
    | AwaitingConfirmation
    | Processing
    | ToolCalling
    | Resolved
    | Escalated
    | Other(name: string)

  const CONFIDENCE_THRESHOLD: real := 0.65
  const MAX_SLOT_FILLING_ROUNDS := 3
  const MAX_AWAITING_ROUNDS := 2

  /** `ALLOWED_TRANSITIONS`. */
  function Successors(s: State): set<State> {
    match s
    case Idle => {IntentDetected}
    case IntentDetected => {SlotFilling}
    case SlotFilling => {AwaitingConfirmation}
    case AwaitingConfirmation => {Processing}
    case Processing => {ToolCalling}
    case ToolCalling => {Resolved, Escalated}
    case _ => {}
  }

  predicate Terminal(s: State) {
    s == Resolved || s == Escalated
  }

  predicate EscalationTriggered(s: State, slotFillingRounds: int, confidence: real) {
    && !Terminal(s)
    && (confidence < CONFIDENCE_THRESHOLD || (s == SlotFilling && slotFillingRounds >= MAX_SLOT_FILLING_ROUNDS))
  }

  /** `_confirmation_target`; the state itself stands for "no trigger". */
  function ConfirmationTarget(s: State, response: string, awaitingRounds: int): State {
    if s != AwaitingConfirmation then s
    else if awaitingRounds >= MAX_AWAITING_ROUNDS then Escalated
    else if response == "confirm" then Processing
    else if response == "deny" then SlotFilling
    else s
  }

  datatype Action =
    | Transition(to: State)
    | AutoEscalate(slotFillingRounds: int, confidence: real)
    | HandleConfirmation(response: string, awaitingRounds: int)

  /** The state an action leads to; an illegal transition raises and stays. */
  function Target(s: State, a: Action): State {
    match a
    case Transition(to) => if to in Successors(s) then to else s
    case AutoEscalate(rounds, confidence) => if EscalationTriggered(s, rounds, confidence) then Escalated else s
    case HandleConfirmation(response, rounds) => ConfirmationTarget(s, response, rounds)
  }

  // ----- whole conversations -----

  function After(start: State, actions: seq<Action>): State {
    if actions == [] then start else Target(After(start, actions[..|actions| - 1]), actions[|actions| - 1])
  }

  /** The turn counter: the number of actions that changed the state. */
  function Turns(start: State, actions: seq<Action>): nat {
    if actions == [] then 0
    else
      var init := actions[..|actions| - 1];
      Turns(start, init) + if After(start, actions) == After(start, init) then 0 else 1
  }

  /** How often the customer denied, and how often confirmation was asked for. */
  function Denials(start: State, actions: seq<Action>): nat {
    if actions == [] then 0
    else
      var init := actions[..|actions| - 1];
      var denied := After(start, init) == AwaitingConfirmation && After(start, actions) == SlotFilling;
      Denials(start, init) + if denied then 1 else 0
  }

  function Askings(start: State, actions: seq<Action>): nat {
    if actions == [] then 0
    else
      var init := actions[..|actions| - 1];
      var asked := After(start, init) != AwaitingConfirmation && After(start, actions) == AwaitingConfirmation;
      Askings(start, init) + if asked then 1 else 0
  }

  /** Position on the way from IDLE to RESOLVED. */
  function Rank(s: State): nat {
    match s
    case Idle => 0
    case IntentDetected => 1
    case SlotFilling => 2
    case AwaitingConfirmation => 3
    case Processing => 4
    case ToolCalling => 5
    case _ => 6
  }

  /** How turns, denials and askings fit a state. */
  ghost predicate Fits(s: State, turns: nat, denials: nat, askings: nat) {
    && !s.Other?
    && turns <= 6 + 2 * denials
    && (s != Escalated ==> turns == Rank(s) + 2 * denials)
    && (s != Escalated ==> askings == denials + if Rank(s) >= 3 then 1 else 0)
    && denials <= askings <= denials + 1
  }

  lemma TargetFits(s: State, a: Action, turns: nat, denials: nat, askings: nat)
    requires Fits(s, turns, denials, askings)
    ensures
      var t := Target(s, a);
      Fits(t, turns + (if t == s then 0 else 1),
           denials + (if s == AwaitingConfirmation && t == SlotFilling then 1 else 0),
           askings + (if s != AwaitingConfirmation && t == AwaitingConfirmation then 1 else 0))
  {
  }

  /** In every conversation: outside ESCALATED the turn counter is the rank of
      the state plus two for every denial, and it never exceeds 6 plus that;
      confirmation has been asked for once more than denied from then on. */
  lemma {:induction false} ConversationInvariant(actions: seq<Action>)
    ensures Fits(After(Idle, actions), Turns(Idle, actions), Denials(Idle, actions), Askings(Idle, actions))
  {
    if actions != [] {
      var init := actions[..|actions| - 1];
      ConversationInvariant(init);
      TargetFits(After(Idle, init), actions[|actions| - 1], Turns(Idle, init), Denials(Idle, init), Askings(Idle, init));
    }
  }

  /** The edges of the table: one place further on the way, to a known state. */
  lemma EdgesExactly(s: State, t: State)
    ensures t in Successors(s) <==> Rank(t) == Rank(s) + 1 && !t.Other?
  {
  }

  /** When a conversation is handed over: below a confidence of 0.65, from the
      third round of filling slots, and from the second of waiting for an answer. */
  lemma EscalatesExactly(rounds: int, confidence: real, response: string)
    ensures Target(Processing, AutoEscalate(rounds, confidence)) == Escalated <==> confidence < 0.65
    ensures Target(SlotFilling, AutoEscalate(rounds, confidence)) == Escalated <==> confidence < 0.65 || rounds >= 3
    ensures Target(AwaitingConfirmation, HandleConfirmation(response, rounds)) == Escalated <==> rounds >= 2
  {
  }

  /** The state before `s` on the way from IDLE. */
  function Before(s: State): State {
    match s
    case SlotFilling => IntentDetected
    case AwaitingConfirmation => SlotFilling
    case Processing => AwaitingConfirmation
    case ToolCalling => Processing
    case Resolved => ToolCalling
    case Escalated => ToolCalling
    case _ => Idle
  }

  /** The way from IDLE to a known state along the table. */
  function Way(s: State): seq<Action>
    requires !s.Other?
    decreases Rank(s)
  {
    if s == Idle then [] else Way(Before(s)) + [Transition(s)]
  }

  /** Every known state is reached from IDLE by legal transitions alone, in as
      many turns as its rank. */
  lemma {:induction false} WayReaches(s: State)
    requires !s.Other?
    ensures After(Idle, Way(s)) == s && Turns(Idle, Way(s)) == Rank(s) && |Way(s)| == Rank(s)
    decreases Rank(s)
  {
    hide After, Turns;
    if s == Idle {
      NoActions();
    } else {
      WayReaches(Before(s));
      OneTransition(Way(Before(s)), s);
    }
  }

  lemma NoActions()
    ensures After(Idle, []) == Idle && Turns(Idle, []) == 0
  {
  }

  lemma OneTransition(actions: seq<Action>, to: State)
    requires to in Successors(After(Idle, actions)) && to != After(Idle, actions)
    ensures After(Idle, actions + [Transition(to)]) == to
    ensures Turns(Idle, actions + [Transition(to)]) == Turns(Idle, actions) + 1
  {
    assert (actions + [Transition(to)])[..|actions|] == actions;
  }

  /** A resolved conversation asked for confirmation once more than it was denied. */
  lemma ResolvedWasConfirmed(actions: seq<Action>)
    requires After(Idle, actions) == Resolved
    ensures Askings(Idle, actions) == Denials(Idle, actions) + 1 && Turns(Idle, actions) == 6 + 2 * Denials(Idle, actions)
  {
    ConversationInvariant(actions);
  }

  /** RESOLVED and ESCALATED are never left, and nothing is counted there. */
  lemma {:induction false} TerminalForever(start: State, actions: seq<Action>, more: seq<Action>)
    requires Terminal(After(start, actions))
    ensures After(start, actions + more) == After(start, actions) && Turns(start, actions + more) == Turns(start, actions)
  {
    if more == [] {
      assert actions + more == actions;
    } else {
      var init := more[..|more| - 1];
      TerminalForever(start, actions, init);
      assert (actions + more)[..|actions + more| - 1] == actions + init;
    }
  }

  // ----- the object -----

  class DialogueState {
    var state: State
    var turnCount: nat
    ghost const start: State
    ghost var history: seq<Action>   // every call so far

    ghost predicate Valid()
      reads this
    {
      state == After(start, history) && turnCount == Turns(start, history)
    }

    /** The laws of a conversation that started at IDLE. */
    ghost predicate Lawful()
      reads this
    {
      start == Idle ==> Fits(state, turnCount, Denials(start, history), Askings(start, history))
    }

    constructor (initialState: State)
      ensures Valid() && start == initialState && history == [] && state == initialState
    {
      state, turnCount := initialState, 0;
      start, history := initialState, [];
    }

    /** The action just taken is the last one. */
    ghost method Record(a: Action)
      requires state == Target(After(start, history), a)
      requires turnCount == Turns(start, history) + if state == After(start, history) then 0 else 1
      modifies this`history
      ensures Valid() && Lawful() && history == old(history) + [a]
      ensures Terminal(After(start, old(history))) ==> state == After(start, old(history))
    {
      assert (history + [a])[..|history|] == history;
      history := history + [a];
      if start == Idle {
        ConversationInvariant(history);
      }
    }

    /** `transition`; false stands for its `ValueError`, after which nothing has
        changed. Never out of a terminal state. */
    method Transition(to: State) returns (ok: bool)
      requires Valid()
      modifies this
      ensures Valid() && Lawful() && history == old(history) + [Action.Transition(to)]
      ensures ok <==> to in Successors(old(state))
      ensures ok ==> state == to && turnCount == old(turnCount) + 1 && !Terminal(old(state))
      ensures ok && to != Escalated ==> Rank(to) == Rank(old(state)) + 1
      ensures !ok ==> state == old(state) && turnCount == old(turnCount)
    {
      ok := to in Successors(state);
      if ok {
        state := to;
        turnCount := turnCount + 1;
      }
      Record(Action.Transition(to));
    }

    /** `auto_escalate`: to ESCALATED or nowhere, never from a terminal state,
        and always on a confidence below the threshold. */
    method AutoEscalate(slotFillingRounds: int, confidence: real) returns (r: State)
      requires Valid()
      modifies this
      ensures Valid() && Lawful() && history == old(history) + [Action.AutoEscalate(slotFillingRounds, confidence)]
      ensures r == state && (state == old(state) || state == Escalated)
      ensures Terminal(old(state)) ==> state == old(state)
      ensures confidence < CONFIDENCE_THRESHOLD ==> Terminal(state)
      ensures confidence >= CONFIDENCE_THRESHOLD && state != old(state) ==>
                old(state) == SlotFilling && slotFillingRounds >= MAX_SLOT_FILLING_ROUNDS
      ensures old(state) == SlotFilling && slotFillingRounds >= MAX_SLOT_FILLING_ROUNDS ==> state == Escalated
    {
      if EscalationTriggered(state, slotFillingRounds, confidence) {
        ApplyTransition(Escalated);
      }
      Record(Action.AutoEscalate(slotFillingRounds, confidence));
      r := state;
    }

    /** `handle_confirmation`: only while confirmation is awaited; from the
        second round on the answer no longer matters. */
    method HandleConfirmation(response: string, awaitingRounds: int) returns (r: State)
      requires Valid()
      modifies this
      ensures Valid() && Lawful() && history == old(history) + [Action.HandleConfirmation(response, awaitingRounds)]
      ensures r == state && (old(state) != AwaitingConfirmation ==> state == old(state))
      ensures old(state) == AwaitingConfirmation ==>
                && (state == Escalated <==> awaitingRounds >= MAX_AWAITING_ROUNDS)
                && (state == Processing <==> awaitingRounds < MAX_AWAITING_ROUNDS && response == "confirm")
                && (Denials(start, history) == Denials(start, old(history)) + 1
                    <==> awaitingRounds < MAX_AWAITING_ROUNDS && response == "deny")
    {
      ghost var before := history;
      var target := ConfirmationTarget(state, response, awaitingRounds);
      if target != state {
        ApplyTransition(target);
      }
      Record(Action.HandleConfirmation(response, awaitingRounds));
      assert history[..|history| - 1] == before;
      r := state;
    }

    method ApplyTransition(newState: State)
      modifies this`state, this`turnCount
      ensures state == newState && turnCount == old(turnCount) + 1
    {
      state := newState;
      turnCount := turnCount + 1;
    }
  }
}
