/** The chain-of-responsibility example: `InteractionHandler` and its two
    concrete handlers. A handler holds an optional successor; since a
    datatype value cannot contain itself, every chain here is finite and
    acyclic. `HandleInteraction` returns the list of messages passed to the
    `onResult` callback, in call order. */
module Interaction {
  import opened Wrappers

  datatype Kind = ButtonHandler | FormHandler

  /** A handler of the given kind with its `nextHandler`. */
  datatype Handler = Handler(kind: Kind, next: Option<Handler>)

  const ButtonClick: string := "buttonClick"
  const FormSubmit: string := "formSubmit"
  const ButtonMessage: string := "Button Clicked: Button interaction handled."
  const FormMessage: string := "Form submitted successfully."

  function Fallback(interactionType: string): string {
    "Unrecognized interaction: " + interactionType
  }

  /** A freshly constructed handler: no successor. */
  function NewHandler(kind: Kind): (h: Handler)
    ensures h.kind == kind && h.next.None?
  {
    Handler(kind, None)
  }

  /** `setNextHandler`: replaces whatever successor was there. */
  function SetNextHandler(h: Handler, successor: Handler): (r: Handler)
    ensures r.kind == h.kind && r.next == Some(successor)
  {
    h.(next := Some(successor))
  }

  /** The type a kind of handler answers to, and its answer. */
  function Accepts(kind: Kind): string {
    match kind
    case ButtonHandler => ButtonClick
    case FormHandler => FormSubmit
  }

  function Answer(kind: Kind): string {
    match kind
    case ButtonHandler => ButtonMessage
    case FormHandler => FormMessage
  }

  /** `handleInteraction` of both concrete handlers: answer on an exact
      match, otherwise defer to `handleNext`. */
  function HandleInteraction(h: Handler, interactionType: string): (out: seq<string>)
    ensures |out| == 1
    ensures interactionType == Accepts(h.kind) ==> out == [Answer(h.kind)]
    ensures interactionType != Accepts(h.kind) ==> out == HandleNext(h, interactionType)
    decreases h, 1
  {
    if interactionType == Accepts(h.kind) then [Answer(h.kind)]
    else HandleNext(h, interactionType)
  }

  /** `handleNext`: hand the unchanged type to the successor, or report it
      unrecognised when there is none. */
  function HandleNext(h: Handler, interactionType: string): (out: seq<string>)
    ensures |out| == 1
    ensures h.next.None? ==> out == [Fallback(interactionType)]
    ensures h.next.Some? ==> out == HandleInteraction(h.next.value, interactionType)
    decreases h, 0
  {
    match h.next
    case None => [Fallback(interactionType)]
    case Some(successor) => HandleInteraction(successor, interactionType)
  }

  /** The kinds along the chain, starting at `h`. */
  function Kinds(h: Handler): (ks: seq<Kind>)
    ensures |ks| >= 1 && ks[0] == h.kind
    decreases h
  {
    match h.next
    case None => [h.kind]
    case Some(successor) => [h.kind] + Kinds(successor)
  }

  /** Reference dispatch over a list of handler kinds: the answer of the
      first kind that accepts the type, otherwise the fallback. */
  function FirstAnswer(ks: seq<Kind>, interactionType: string): (msg: string)
    ensures (exists i :: 0 <= i < |ks| && Accepts(ks[i]) == interactionType)
            || msg == Fallback(interactionType)
    ensures forall i :: 0 <= i < |ks| && Accepts(ks[i]) == interactionType
              && (forall i' :: 0 <= i' < i ==> Accepts(ks[i']) != interactionType)
              ==> msg == Answer(ks[i])
    decreases |ks|
  {
    if |ks| == 0 then Fallback(interactionType)
    else if Accepts(ks[0]) == interactionType then Answer(ks[0])
    else
      var m := FirstAnswer(ks[1..], interactionType);
      assert forall i :: 1 <= i < |ks| ==> ks[1..][i - 1] == ks[i];
      m
  }

  /** Over any finite chain, `onResult` is called exactly once, with the
      answer of the first handler that recognises the type, or else with
      the tail's fallback message. */
  lemma {:induction false} DispatchIsFirstMatch(h: Handler, interactionType: string)
    ensures HandleInteraction(h, interactionType) == [FirstAnswer(Kinds(h), interactionType)]
    decreases h
  {
    match h.next
    case None =>
    case Some(successor) =>
      DispatchIsFirstMatch(successor, interactionType);
      assert Kinds(h)[1..] == Kinds(successor);
  }

  /** Repeated `setNextHandler` calls: the last one wins. */
  lemma LastSuccessorWins(h: Handler, a: Handler, b: Handler)
    ensures SetNextHandler(SetNextHandler(h, a), b) == SetNextHandler(h, b)
  {
  }

  /** The Button -> Form chain the example screen wires up. */
  function ScreenChain(): Handler {
    SetNextHandler(NewHandler(ButtonHandler), NewHandler(FormHandler))
  }

  /** The three buttons of the example screen and what they show. */
  lemma ScreenChainMessages()
    ensures HandleInteraction(ScreenChain(), "buttonClick") == [ButtonMessage]
    ensures HandleInteraction(ScreenChain(), "formSubmit") == [FormMessage]
    ensures HandleInteraction(ScreenChain(), "unknown") == ["Unrecognized interaction: unknown"]
  {
    assert "unknown"[0] != ButtonClick[0] && "unknown"[0] != FormSubmit[0];
    assert Fallback("unknown") == "Unrecognized interaction: unknown";
  }

  /** A chain never looks backwards: the form handler on its own does not
      recognise a button click. */
  lemma FormTailRejectsButtonClick()
    ensures HandleInteraction(NewHandler(FormHandler), "buttonClick")
              == ["Unrecognized interaction: buttonClick"]
  {
    assert ButtonClick[0] != FormSubmit[0];
    assert Fallback("buttonClick") == "Unrecognized interaction: buttonClick";
  }

  /** Matching is exact, case-sensitive equality. */
  lemma MatchIsCaseSensitive()
    ensures HandleInteraction(NewHandler(ButtonHandler), "ButtonClick")
              == ["Unrecognized interaction: ButtonClick"]
  {
    assert "ButtonClick"[0] != ButtonClick[0];
    assert Fallback("ButtonClick") == "Unrecognized interaction: ButtonClick";
  }
}
