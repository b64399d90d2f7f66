/**
 The search-open flag shared through a React context: `SearchProvider` owns
 one boolean, `isSearchOpen`, changed only by `toggleSearch` and
 `setSearchOpen`; `useSearch` returns the context or throws outside a provider.
 */
module UseSearchHook {
  import opened Wrappers

  /** The two ways the flag changes. */
  datatype Action = Toggle | SetOpen(open: bool)

  /** The flag after one action. */
  function Apply(isOpen: bool, action: Action): (r: bool)
    ensures action.Toggle? ==> r == !isOpen
    ensures action.SetOpen? ==> r == action.open
  {
    match action
    case Toggle => !isOpen
    case SetOpen(open) => open
  }

  /** The flag after a sequence of actions, first to last; a final `setSearchOpen(b)` leaves `b`. */
  function Run(isOpen: bool, actions: seq<Action>): (r: bool)
    ensures actions != [] && actions[|actions| - 1].SetOpen? ==> r == actions[|actions| - 1].open
    decreases |actions|
  {
    if actions == [] then isOpen else Run(Apply(isOpen, actions[0]), actions[1..])
  }

  /** `n` toggles in a row. */
  function Toggles(n: nat): (r: seq<Action>)
    ensures |r| == n
    ensures forall i :: 0 <= i < n ==> r[i] == Toggle
  {
    seq(n, _ => Toggle)
  }

  /** Running two sequences of actions is running the first, then the second. */
  lemma {:induction false} RunAppend(isOpen: bool, xs: seq<Action>, ys: seq<Action>)
    ensures Run(isOpen, xs + ys) == Run(Run(isOpen, xs), ys)
    decreases |xs|
  {
    if xs != [] {
      assert (xs + ys)[0] == xs[0];
      assert (xs + ys)[1..] == xs[1..] + ys;
      RunAppend(Apply(isOpen, xs[0]), xs[1..], ys);
    } else {
      assert xs + ys == ys;
    }
  }

  /** `n` toggles leave the flag as it was when `n` is even and flip it when `n` is odd. */
  lemma {:induction false} TogglesParity(isOpen: bool, n: nat)
    ensures Run(isOpen, Toggles(n)) == (if n % 2 == 0 then isOpen else !isOpen)
    decreases n
  {
    if n > 0 {
      assert Toggles(n) == [Toggle] + Toggles(n - 1);
      TogglesParity(!isOpen, n - 1);
    }
  }

  /** Two toggles restore the original state. */
  lemma ToggleTwiceRestores(isOpen: bool)
    ensures Run(isOpen, [Toggle, Toggle]) == isOpen
  {
    TogglesParity(isOpen, 2);
    assert Toggles(2) == [Toggle, Toggle];
  }

  /** `setSearchOpen(b)` forgets everything before it: only the actions after it matter. */
  lemma SetOpenForgetsHistory(isOpen: bool, before: seq<Action>, open: bool, after: seq<Action>)
    ensures Run(isOpen, before + [SetOpen(open)] + after) == Run(open, after)
  {
    RunAppend(isOpen, before + [SetOpen(open)], after);
    RunAppend(isOpen, before, [SetOpen(open)]);
  }

  /** `setSearchOpen(b)` is idempotent. */
  lemma SetOpenIdempotent(isOpen: bool, open: bool)
    ensures Run(isOpen, [SetOpen(open), SetOpen(open)]) == Run(isOpen, [SetOpen(open)]) == open
  {
  }

  /** The value a `SearchProvider` hands to its subtree. */
  class SearchContext {
    var isSearchOpen: bool

    /** `useState(false)`: the overlay starts closed. */
    constructor ()
      ensures !isSearchOpen
    {
      isSearchOpen := false;
    }

    /** `toggleSearch`: negates the flag. */
    method ToggleSearch()
      modifies this
      ensures isSearchOpen == Apply(old(isSearchOpen), Toggle)
    {
      isSearchOpen := !isSearchOpen;
    }

    /** `setSearchOpen(open)`: sets the flag to `open`. */
    method SetSearchOpen(open: bool)
      modifies this
      ensures isSearchOpen == Apply(old(isSearchOpen), SetOpen(open))
    {
      isSearchOpen := open;
    }
  }

  const OutsideProviderMessage := "useSearch must be used within a SearchProvider"

  /** `useSearch`: the enclosing provider's context, or the error it throws when there is none. */
  function UseSearch(provided: Option<SearchContext>): (r: Result<SearchContext>)
    ensures r.Ok? <==> provided.Some?
    ensures r.Ok? ==> r.value == provided.value
    ensures r.Err? ==> r.message == OutsideProviderMessage
  {
    match provided
    case None => Err(OutsideProviderMessage)
    case Some(context) => Ok(context)
  }
}
