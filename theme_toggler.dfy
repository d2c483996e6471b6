/** The theme toggle button (src/components/animate-ui/components/buttons/theme-toggler.jsx): which
    theme a click moves to, and which icon the button shows. */
module ThemeToggler {
  import opened JsValues

  /** The button's default `modes`. */
  const DefaultModes: seq<string> := ["light", "dark", "system"]

  /** `modes.indexOf(t)`, absent for `-1`. */
  function IndexOf(modes: seq<string>, t: string): (r: Option<nat>)
    ensures r.Some? ==> r.value < |modes| && modes[r.value] == t
    ensures r.None? <==> t !in modes
    decreases |modes|
  {
    if modes == [] then None
    else if modes[0] == t then Some(0)
    else match IndexOf(modes[1..], t)
      case None => None
      case Some(i) => Some(i + 1)
  }

  /** `indexOf` finds the first occurrence. */
  lemma {:induction false} IndexOfIsFirst(modes: seq<string>, t: string)
    ensures IndexOf(modes, t).Some? ==> forall j :: 0 <= j < IndexOf(modes, t).value ==> modes[j] != t
    decreases |modes|
  {
    if modes != [] && modes[0] != t {
      IndexOfIsFirst(modes[1..], t);
      if IndexOf(modes, t).Some? {
        forall j | 0 <= j < IndexOf(modes, t).value ensures modes[j] != t {
          if j > 0 {
            assert modes[j] == modes[1..][j - 1];
          }
        }
      }
    }
  }

  /** `getNextTheme(effective, modes)`: the mode after the first occurrence of `effective`, wrapping
      to the front, or `modes[0]` when `effective` is not a mode; `undefined` for no modes. */
  function NextTheme(effective: string, modes: seq<string>): (r: Option<string>)
    ensures modes == [] <==> r.None?
    ensures r.Some? ==> r.value in modes
    ensures modes != [] && effective !in modes ==> r == Some(modes[0])
  {
    if modes == [] then None
    else match IndexOf(modes, effective)
      case None => Some(modes[0])
      case Some(i) => Some(modes[NextIndex(i, |modes|)])
  }

  /** `(i + 1) % modes.length` for an index `i` of the modes, written as the wrap to the front. */
  function NextIndex(i: nat, m: nat): (r: nat)
    requires i < m
    ensures r < m
  {
    if i + 1 < m then i + 1 else 0
  }

  /** The wrap is the remainder the button takes. */
  lemma NextIndexIsRemainder(i: nat, m: nat)
    requires i < m
    ensures NextIndex(i, m) == (i + 1) % m
  {
  }

  /** For any modes, repeats included, a click on a theme that is a mode moves to the mode after the
      theme's first occurrence, modulo the number of modes. */
  lemma NextThemeOfFirstOccurrence(effective: string, modes: seq<string>)
    requires effective in modes
    ensures IndexOf(modes, effective).Some?
    ensures var i := IndexOf(modes, effective).value;
      && modes[i] == effective
      && (forall j :: 0 <= j < i ==> modes[j] != effective)
      && NextTheme(effective, modes) == Some(modes[(i + 1) % |modes|])
  {
    IndexOfIsFirst(modes, effective);
    var i := IndexOf(modes, effective).value;
    NextIndexIsRemainder(i, |modes|);
  }

  ghost predicate Distinct(modes: seq<string>) {
    forall i, j :: 0 <= i < j < |modes| ==> modes[i] != modes[j]
  }

  lemma IndexOfDistinct(modes: seq<string>, i: nat)
    requires Distinct(modes) && i < |modes|
    ensures IndexOf(modes, modes[i]) == Some(i)
  {
  }

  /** With distinct modes, a click moves from each mode to the next one in the list, and from the last
      to the first. */
  lemma NextThemeOfMode(modes: seq<string>, i: nat)
    requires Distinct(modes) && i < |modes|
    ensures NextTheme(modes[i], modes) == Some(if i + 1 < |modes| then modes[i + 1] else modes[0])
  {
    IndexOfDistinct(modes, i);
  }

  /** The theme after `n` clicks. */
  function Clicks(effective: string, modes: seq<string>, n: nat): (r: string)
    requires modes != []
    ensures n > 0 ==> r in modes
    decreases n
  {
    if n == 0 then effective else Clicks(NextTheme(effective, modes).value, modes, n - 1)
  }

  /** Clicking `a` times and then `b` times is clicking `a + b` times. */
  lemma {:induction false} ClicksCompose(t: string, modes: seq<string>, a: nat, b: nat)
    requires modes != []
    ensures Clicks(t, modes, a + b) == Clicks(Clicks(t, modes, a), modes, b)
    decreases a
  {
    if a > 0 {
      ClicksCompose(NextTheme(t, modes).value, modes, a - 1, b);
    }
  }

  /** Before the end of the list, `n` clicks from the `i`-th of distinct modes land `n` places on. */
  lemma {:induction false} ClicksWithinRound(modes: seq<string>, i: nat, n: nat)
    requires Distinct(modes) && i + n < |modes|
    ensures Clicks(modes[i], modes, n) == modes[i + n]
    decreases n
  {
    if n > 0 {
      NextThemeOfMode(modes, i);
      ClicksWithinRound(modes, i + 1, n - 1);
    }
  }

  /** Clicks from `t` that reach `u` after `a` steps and `v` after `b` more reach `v` after `a + b`. */
  lemma ClicksThen(t: string, u: string, v: string, modes: seq<string>, a: nat, b: nat, c: nat)
    requires modes != [] && Clicks(t, modes, a) == u && Clicks(u, modes, b) == v && c == a + b
    ensures Clicks(t, modes, c) == v
  {
    ClicksCompose(t, modes, a, b);
  }

  /** Clicking past the last of distinct modes comes back to the first. */
  lemma {:induction false} ClicksPastEnd(modes: seq<string>, i: nat)
    requires Distinct(modes) && i < |modes|
    ensures Clicks(modes[i], modes, |modes| - i) == modes[0]
    decreases |modes| - i
  {
    NextThemeOfMode(modes, i);
    if i + 1 < |modes| {
      ClicksPastEnd(modes, i + 1);
    }
  }

  /** With distinct modes, as many clicks as there are modes come back to the starting mode. */
  lemma ClicksFullRound(modes: seq<string>, i: nat)
    requires Distinct(modes) && i < |modes|
    ensures Clicks(modes[i], modes, |modes|) == modes[i]
  {
    ClicksPastEnd(modes, i);
    ClicksWithinRound(modes, 0, i);
    ClicksThen(modes[i], modes[0], modes[0 + i], modes, |modes| - i, i, |modes|);
  }

  /** With distinct modes, fewer clicks than there are modes never come back to the starting mode. */
  lemma ClicksNotBefore(modes: seq<string>, i: nat, n: nat)
    requires Distinct(modes) && i < |modes| && 0 < n < |modes|
    ensures Clicks(modes[i], modes, n) != modes[i]
  {
    if i + n < |modes| {
      ClicksWithinRound(modes, i, n);
      assert modes[i + n] != modes[i];
    } else {
      var k := i + n - |modes|;
      ClicksPastEnd(modes, i);
      ClicksWithinRound(modes, 0, k);
      ClicksThen(modes[i], modes[0], modes[0 + k], modes, |modes| - i, k, n);
      assert modes[k] != modes[i];
    }
  }

  /** With distinct modes, as many clicks as there are modes come back to the starting mode, and
      fewer clicks never do. */
  lemma ClicksCycle(modes: seq<string>, i: nat)
    requires Distinct(modes) && i < |modes|
    ensures Clicks(modes[i], modes, |modes|) == modes[i]
    ensures forall n :: 0 < n < |modes| ==> Clicks(modes[i], modes, n) != modes[i]
  {
    ClicksFullRound(modes, i);
    forall n | 0 < n < |modes| ensures Clicks(modes[i], modes, n) != modes[i] {
      ClicksNotBefore(modes, i, n);
    }
  }

  /** A theme that is not a mode goes to the first mode in one click. */
  lemma UnknownThemeGoesToFirst(effective: string, modes: seq<string>)
    requires modes != [] && effective !in modes
    ensures Clicks(effective, modes, 1) == modes[0]
  {
  }

  datatype Icon = Monitor | Moon | Sun

  /** `getIcon(effective, resolved, modes)`: the chosen theme is `effective` when `'system'` is a
      mode, else `resolved`; `system` shows a monitor, `dark` a moon, anything else a sun. */
  function GetIcon(effective: string, resolved: string, modes: seq<string>): (r: Icon)
    ensures var t := if "system" in modes then effective else resolved;
      && (r == Monitor <==> t == "system")
      && (r == Moon <==> t == "dark")
  {
    var theme := if "system" in modes then effective else resolved;
    if theme == "system" then Monitor
    else if theme == "dark" then Moon
    else Sun
  }

  /** With the default modes every click changes the icon, and three clicks bring the first one
      back. */
  lemma DefaultModesIconChangesOnEveryClick(effective: string, resolved: string)
    requires effective in DefaultModes
    ensures GetIcon(NextTheme(effective, DefaultModes).value, resolved, DefaultModes)
         != GetIcon(effective, resolved, DefaultModes)
    ensures Clicks(effective, DefaultModes, 3) == effective
  {
    var i :| 0 <= i < 3 && DefaultModes[i] == effective;
    assert Distinct(DefaultModes);
    NextThemeOfMode(DefaultModes, i);
    ClicksCycle(DefaultModes, i);
  }
}
