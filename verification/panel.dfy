/** The weather panel's visibility: its `style.display` starts as "none",
    and every click on the link swaps "none" and "flex". */
module Panel {

  /** The two values `style.display` takes. */
  datatype Display = Hidden | Flex

  /** The CSS text of a display state. */
  function Css(d: Display): string
  {
    match d
    case Hidden => "none"
    case Flex => "flex"
  }

  /** The state the panel is created in. */
  const Initial: Display := Hidden

  /** One click: `display === 'none' ? 'flex' : 'none'`. */
  function Toggle(d: Display): (r: Display)
    ensures r != d
    ensures Css(r) == "flex" <==> Css(d) == "none"
  {
    if Css(d) == "none" then Flex else Hidden
  }

  /** The state after `n` clicks, starting from `d`. */
  function Clicks(d: Display, n: nat): Display
  {
    if n == 0 then d else Toggle(Clicks(d, n - 1))
  }

  /** Two clicks restore the previous state. */
  lemma ToggleTwice(d: Display)
    ensures Toggle(Toggle(d)) == d
  {
  }

  /** After `n` clicks the state is back where it started exactly when `n` is
      even. */
  lemma {:induction false} ClicksParity(d: Display, n: nat)
    ensures Clicks(d, n) == d <==> n % 2 == 0
    ensures Clicks(d, n) == (if n % 2 == 0 then d else Toggle(d))
  {
    if n > 0 {
      ClicksParity(d, n - 1);
    }
  }

  /** From the initial state the panel is visible after `n` clicks exactly
      when `n` is odd. */
  lemma ShownAfterOddClicks(n: nat)
    ensures Css(Clicks(Initial, n)) == "flex" <==> n % 2 == 1
  {
  }
}
