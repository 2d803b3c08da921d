/** The confirmation gate: one replaceable question `message -> proceed?`. */
module Prompt {

  /** The warning sign (U+26A0 with emoji presentation U+FE0F) that opens every confirmation question. */
  const WarningSign: string := "\U{26A0}\U{FE0F}"

  /** The gate installed at start-up: it answers yes to every question (after a console warning). */
  function DefaultPrompt(message: string): (proceed: bool)
    ensures proceed
  {
    true
  }

  /** The module-level slot holding the current gate. */
  class PromptGate {
    var current: string -> bool

    constructor ()
      ensures current == DefaultPrompt
    {
      current := DefaultPrompt;
    }

    /** `setPromptFunction`: replaces the gate, nothing else changes. */
    method SetPromptFunction(fn: string -> bool)
      modifies this
      ensures current == fn
    {
      current := fn;
    }

    /** `promptConfirmation`: asks whichever gate is installed. */
    method PromptConfirmation(message: string) returns (proceed: bool)
      ensures proceed == current(message)
    {
      proceed := current(message);
    }
  }
}
