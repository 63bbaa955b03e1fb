/** The names of the events that begin and finish cycles, kind by kind, in both spellings. */
module CycleNames {
  import opened CycleWindows
  import opened CycleDetection

  // The event begins a cycle of the kind, under a name the two-pass form knows.
  predicate SnakeBegins(e: Event, slot: Slot) {
    && e.category == "decision"
    && match slot
       case Review => e.kind == "review_cycle_started"
       case Repair => e.kind == "repair_cycle_test_cycle_started" || e.kind == "repair_cycle_fix_cycle_started"
       case Conversation => e.kind == "conversational_loop_started"
  }

  predicate SnakeFinishes(e: Event, slot: Slot) {
    && e.category == "decision"
    && match slot
       case Review => e.kind == "review_cycle_completed"
       case Repair => e.kind == "repair_cycle_test_cycle_completed" || e.kind == "repair_cycle_fix_cycle_completed"
       case Conversation => e.kind == "conversational_loop_completed"
  }

  // The names that only the single pass knows.
  predicate PascalBegins(e: Event, slot: Slot) {
    && e.category == "decision"
    && match slot
       case Review => e.kind == "ReviewCycleStarted"
       case Repair => e.kind == "RepairCycleTestCycleStarted" || e.kind == "RepairCycleFixCycleStarted"
       case Conversation => e.kind == "ConversationalLoopStarted"
  }

  predicate PascalFinishes(e: Event, slot: Slot) {
    && e.category == "decision"
    && match slot
       case Review => e.kind == "ReviewCycleCompleted"
       case Repair => e.kind == "RepairCycleTestCycleCompleted" || e.kind == "RepairCycleFixCycleCompleted"
       case Conversation => e.kind == "ConversationalLoopCompleted"
  }

  predicate Begins(e: Event, slot: Slot) {
    SnakeBegins(e, slot) || PascalBegins(e, slot)
  }

  predicate Finishes(e: Event, slot: Slot) {
    SnakeFinishes(e, slot) || PascalFinishes(e, slot)
  }

  // Lengths and first letters tell all sixteen names apart.
  lemma PascalNames(kind: string)
    ensures kind == "ReviewCycleStarted" ==> |kind| == 18
    ensures kind == "ReviewCycleCompleted" ==> |kind| == 20 && kind[0] == 'R'
    ensures kind == "RepairCycleTestCycleStarted" ==> |kind| == 27 && kind[0] == 'R'
    ensures kind == "RepairCycleFixCycleStarted" ==> |kind| == 26
    ensures kind == "RepairCycleTestCycleCompleted" ==> |kind| == 29 && kind[0] == 'R'
    ensures kind == "RepairCycleFixCycleCompleted" ==> |kind| == 28
    ensures kind == "ConversationalLoopStarted" ==> |kind| == 25
    ensures kind == "ConversationalLoopCompleted" ==> |kind| == 27 && kind[0] == 'C'
  {
  }

  lemma FirstLetters(kind: string)
    ensures kind == "review_cycle_started" ==> kind[0] == 'r'
    ensures kind == "conversational_loop_started" ==> kind[0] == 'c'
    ensures kind == "conversational_loop_completed" ==> kind[0] == 'c'
  {
  }

  // The two-pass form reads exactly the snake_case names.
  lemma SnakeMarksAreNames(e: Event, slot: Slot)
    ensures SnakeMark(e) == Starts(slot) <==> SnakeBegins(e, slot)
    ensures SnakeMark(e) == Ends(slot) <==> SnakeFinishes(e, slot)
  {
    SnakeNames(e.kind);
  }

  // A mark of the single pass comes from a name ...
  lemma AnyMarkHasName(e: Event, slot: Slot)
    ensures AnyMark(e) == Starts(slot) ==> Begins(e, slot)
    ensures AnyMark(e) == Ends(slot) ==> Finishes(e, slot)
  {
  }

  // ... and a name gives the mark.
  lemma BeginningHasMark(e: Event, slot: Slot)
    requires Begins(e, slot)
    ensures AnyMark(e) == Starts(slot)
  {
    SnakeNames(e.kind);
    PascalNames(e.kind);
    FirstLetters(e.kind);
  }

  lemma FinishHasMark(e: Event, slot: Slot)
    requires Finishes(e, slot)
    ensures AnyMark(e) == Ends(slot)
  {
    SnakeNames(e.kind);
    PascalNames(e.kind);
    FirstLetters(e.kind);
  }

  // The single pass reads both spellings.
  lemma AnyMarksAreNames(e: Event, slot: Slot)
    ensures AnyMark(e) == Starts(slot) <==> Begins(e, slot)
    ensures AnyMark(e) == Ends(slot) <==> Finishes(e, slot)
  {
    AnyMarkHasName(e, slot);
    if Begins(e, slot) {
      BeginningHasMark(e, slot);
    }
    if Finishes(e, slot) {
      FinishHasMark(e, slot);
    }
  }

  // What the two-pass form knows, the single pass understands in the same way; what only the
  // single pass knows has a PascalCase name.
  lemma KnownNamesAgree(e: Event)
    ensures SnakeMark(e) != Neither ==> AnyMark(e) == SnakeMark(e)
    ensures (forall slot :: !PascalBegins(e, slot) && !PascalFinishes(e, slot)) ==> AnyMark(e) == SnakeMark(e)
  {
    forall slot: Slot
      ensures SnakeMark(e) == Starts(slot) ==> AnyMark(e) == Starts(slot)
      ensures SnakeMark(e) == Ends(slot) ==> AnyMark(e) == Ends(slot)
      ensures AnyMark(e) == Starts(slot) && !PascalBegins(e, slot) ==> SnakeMark(e) == Starts(slot)
      ensures AnyMark(e) == Ends(slot) && !PascalFinishes(e, slot) ==> SnakeMark(e) == Ends(slot)
    {
      SnakeMarksAreNames(e, slot);
      AnyMarksAreNames(e, slot);
    }
  }
}
