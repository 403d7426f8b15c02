/**
  A collapsible section (components/AccordionSection.tsx).

  The section is controlled when its parent passes an `expanded` flag and uncontrolled
  otherwise; in the latter case it keeps an internal flag that starts collapsed. Pressing
  the title notifies the parent (when it gave an `onToggle` callback) and flips the internal
  flag only when uncontrolled. The height animation is not modelled.
 */
module Accordion {
  import opened Wrappers

  /** The props that drive behaviour: the optional `expanded` flag and whether `onToggle` was given. */
  datatype Props = Props(controlled: Option<bool>, hasOnToggle: bool)

  /** The `internalExpanded` state hook. */
  datatype State = State(internal: bool)

  /** `useState(false)`: a newly mounted section. */
  const Mounted := State(false)

  /** The state after a press, and how many times `onToggle` was called. */
  datatype ToggleOutcome = ToggleOutcome(next: State, notified: nat)

  /** `isControlled`: the parent supplied `expanded`. */
  predicate IsControlled(p: Props)
  {
    p.controlled.Some?
  }

  /** The displayed state: the prop when supplied, the internal flag otherwise. */
  function Expanded(p: Props, s: State): bool
  {
    match p.controlled
    case Some(e) => e
    case None => s.internal
  }

  /** `toggle`: notify the parent, then flip the internal flag unless controlled. */
  function Toggle(p: Props, s: State): (r: ToggleOutcome)
    ensures r.notified == (if p.hasOnToggle then 1 else 0)
    ensures IsControlled(p) ==> r.next == s
    ensures !IsControlled(p) ==> r.next.internal == !s.internal
  {
    ToggleOutcome(
      if IsControlled(p) then s else State(!s.internal),
      if p.hasOnToggle then 1 else 0)
  }

  /** The children are rendered only while expanded. */
  predicate ContentVisible(p: Props, s: State)
  {
    Expanded(p, s)
  }

  /** The title's suffix while expanded, as the source file spells it (a mis-decoded en dash). */
  const ExpandedSuffix: string := "\U{E2}\U{20AC}\U{201C}"

  /** The title's suffix while collapsed. */
  const CollapsedSuffix: string := "+"

  /** The title line: the title, a space, then the suffix. */
  function TitleText(title: string, p: Props, s: State): (t: string)
    ensures |t| > |title| && t[..|title|] == title && t[|title|] == ' '
  {
    title + " " + (if Expanded(p, s) then ExpandedSuffix else CollapsedSuffix)
  }

  // ---------------------------------------------------------------------------
  // Properties

  /** A supplied `expanded` prop decides the display whatever the internal flag holds. */
  lemma ControlledIgnoresInternal(e: bool, hasOnToggle: bool, s: State)
    ensures Expanded(Props(Some(e), hasOnToggle), s) == e
    ensures forall s' :: Expanded(Props(Some(e), hasOnToggle), s') == Expanded(Props(Some(e), hasOnToggle), s)
  {
  }

  /** An uncontrolled section starts collapsed: no content, "+" suffix. */
  lemma UncontrolledStartsCollapsed(title: string, hasOnToggle: bool)
    ensures !Expanded(Props(None, hasOnToggle), Mounted)
    ensures !ContentVisible(Props(None, hasOnToggle), Mounted)
    ensures TitleText(title, Props(None, hasOnToggle), Mounted) == title + " +"
  {
  }

  /** One press of an uncontrolled section flips what it shows; a controlled one shows the same until its parent changes the prop. */
  lemma ToggleDisplay(p: Props, s: State)
    ensures !IsControlled(p) ==> Expanded(p, Toggle(p, s).next) == !Expanded(p, s)
    ensures IsControlled(p) ==> Expanded(p, Toggle(p, s).next) == Expanded(p, s)
  {
  }

  /** Two presses restore the state (and so what is shown), in either mode, and notify twice. */
  lemma ToggleTwiceRestores(p: Props, s: State)
    ensures Toggle(p, Toggle(p, s).next).next == s
    ensures Expanded(p, Toggle(p, Toggle(p, s).next).next) == Expanded(p, s)
    ensures Toggle(p, s).notified + Toggle(p, Toggle(p, s).next).notified == (if p.hasOnToggle then 2 else 0)
  {
  }

  /** Content is visible exactly when expanded, and the suffix is "+" exactly when collapsed. */
  lemma TitleSuffixTracksVisibility(title: string, p: Props, s: State)
    ensures TitleText(title, p, s)[|title| + 1..] == CollapsedSuffix <==> !ContentVisible(p, s)
    ensures TitleText(title, p, s)[|title| + 1..] == ExpandedSuffix <==> ContentVisible(p, s)
  {
  }

  /** The outcome of `n` presses in a row, with the total number of `onToggle` calls. */
  function Presses(p: Props, s: State, n: nat): ToggleOutcome
    decreases n
  {
    if n == 0 then ToggleOutcome(s, 0)
    else
      var first := Toggle(p, s);
      var rest := Presses(p, first.next, n - 1);
      ToggleOutcome(rest.next, first.notified + rest.notified)
  }

  /**
    After `n` presses `onToggle` has been called `n` times (when given), and an uncontrolled
    section shows the opposite of where it started exactly when `n` is odd, while a
    controlled one still shows its prop.
   */
  lemma {:induction false} PressesParity(p: Props, s: State, n: nat)
    ensures Presses(p, s, n).notified == (if p.hasOnToggle then n else 0)
    ensures !IsControlled(p) ==> (Expanded(p, Presses(p, s, n).next) <==> (Expanded(p, s) != (n % 2 == 1)))
    ensures IsControlled(p) ==> Presses(p, s, n).next == s
    decreases n
  {
    if n > 0 {
      PressesParity(p, Toggle(p, s).next, n - 1);
    }
  }

  /** A parent that passes its flag as `expanded` and flips that flag on every notification. */
  datatype ParentState = ParentState(open: bool, section: State)

  /** `n` presses of a section whose parent is such a flipping parent that supplied `onToggle`. */
  function ParentPresses(ps: ParentState, n: nat): ParentState
    decreases n
  {
    if n == 0 then ps
    else
      var o := Toggle(Props(Some(ps.open), true), ps.section);
      var open' := if o.notified == 1 then !ps.open else ps.open;
      ParentPresses(ParentState(open', o.next), n - 1)
  }

  /**
    Under a parent that flips its flag from `onToggle`, each press flips what the section
    shows, as it would uncontrolled, while the internal flag never moves.
   */
  lemma {:induction false} ParentControlledFlips(ps: ParentState, n: nat)
    ensures ParentPresses(ps, n).section == ps.section
    ensures Expanded(Props(Some(ParentPresses(ps, n).open), true), ParentPresses(ps, n).section)
      <==> (Expanded(Props(Some(ps.open), true), ps.section) != (n % 2 == 1))
    decreases n
  {
    if n > 0 {
      var o := Toggle(Props(Some(ps.open), true), ps.section);
      ParentControlledFlips(ParentState(!ps.open, o.next), n - 1);
    }
  }
}
