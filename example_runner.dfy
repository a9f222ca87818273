/**
 * The launcher of the examples application: a registry of example entries, a drop-down
 * selection over it, and the screen that is currently shown (the menu, one running
 * example, or none).
 *
 * Entries are identified by their index in the registry; `names[k]` is the simple class
 * name of entry `k`. Reflective instantiation is a factory `instantiable` that says, per
 * entry, whether `newInstance()` succeeds; `false` stands for the two exceptions that
 * `startExample` catches (`InstantiationException`, `IllegalAccessException`). The widgets, drawing and keyboard polling are
 * outside the model: the keys just pressed on a frame are an input.
 */
module Runner {
  import opened Wrappers

  /** The screen the game shows; at most one example is ever active. */
  datatype Screen = NoScreen | Menu | Running(entry: nat)

  /** Which of the keys the launcher reacts to were just pressed on a frame. */
  datatype Keys = Keys(backspace: bool, enter: bool, up: bool, down: bool)

  /**
   * The launcher's mutable state: the current screen, the selected index of the
   * drop-down (-1 when nothing is selected) and the screens disposed so far, in order.
   */
  datatype LauncherState = LauncherState(screen: Screen, selected: int, disposals: seq<Screen>)

  /** The selection and the running entry (if any) are indices into the registry. */
  predicate Consistent(n: nat, s: LauncherState)
  {
    -1 <= s.selected < n && (s.screen.Running? ==> s.screen.entry < n)
  }

  // ---------------------------------------------------------------------------------
  // Lookup

  /** The first entry at or after `from` whose name is `name`. */
  function FindFrom(names: seq<string>, name: string, from: nat): (r: Option<nat>)
    requires from <= |names|
    ensures r.Some? ==> from <= r.value < |names| && names[r.value] == name &&
                        forall j :: from <= j < r.value ==> names[j] != name
    ensures r.None? <==> forall j :: from <= j < |names| ==> names[j] != name
    decreases |names| - from
  {
    if from == |names| then None
    else if names[from] == name then Some(from)
    else FindFrom(names, name, from + 1)
  }

  /** `getExample(name)`: the first registered entry with that name, or none. */
  function FindEntry(names: seq<string>, name: string): (r: Option<nat>)
    ensures r.Some? ==> r.value < |names| && names[r.value] == name &&
                        forall j :: 0 <= j < r.value ==> names[j] != name
    ensures r.None? <==> name !in names
  {
    FindFrom(names, name, 0)
  }

  // ---------------------------------------------------------------------------------
  // Keyboard navigation of the selection

  /** Java's `%` on `int`: the remainder takes the sign of the dividend. */
  function JavaRem(a: int, n: int): int
    requires n > 0
  {
    if a >= 0 then a % n else -((-a) % n)
  }

  /** UP: `(i + n - 1) % n`, the previous entry, wrapping from the first to the last. */
  function Up(i: int, n: int): (j: int)
    requires n > 0 && -1 <= i < n
    ensures 0 <= j < n
    ensures i == 0 ==> j == n - 1
    ensures i > 0 ==> j == i - 1
    ensures i == -1 ==> j == (if n == 1 then 0 else n - 2)
  {
    JavaRem(i + n - 1, n)
  }

  /** DOWN: `(i + 1) % n`, the next entry, wrapping from the last to the first. */
  function Down(i: int, n: int): (j: int)
    requires n > 0 && -1 <= i < n
    ensures 0 <= j < n
    ensures i == n - 1 ==> j == 0
    ensures i < n - 1 ==> j == i + 1
  {
    JavaRem(i + 1, n)
  }

  /** UP and DOWN undo each other on the valid indices. */
  lemma UpDownInverse(i: int, n: int)
    requires n > 0 && 0 <= i < n
    ensures Down(Up(i, n), n) == i && Up(Down(i, n), n) == i
  {
  }

  // ---------------------------------------------------------------------------------
  // Transitions

  /** `startExample(k)`: show a new instance of entry `k`; on failure nothing changes. */
  function Started(s: LauncherState, k: nat, instantiable: nat -> bool): (r: LauncherState)
    ensures r.selected == s.selected && r.disposals == s.disposals
    ensures instantiable(k) ==> r.screen == Running(k)
    ensures !instantiable(k) ==> r == s
  {
    if instantiable(k) then s.(screen := Running(k)) else s
  }

  /** `runSelectedExample()`: start the selected entry, if there is a selection. */
  function SelectedRun(s: LauncherState, instantiable: nat -> bool): (r: LauncherState)
    ensures r.selected == s.selected && r.disposals == s.disposals
    ensures s.selected < 0 ==> r == s
    ensures s.selected >= 0 && instantiable(s.selected) ==> r.screen == Running(s.selected)
    ensures s.selected >= 0 && !instantiable(s.selected) ==> r == s
  {
    if s.selected < 0 then s else Started(s, s.selected, instantiable)
  }

  /**
   * The start-up branch of `create()`: an argument naming a registered entry starts that
   * entry without showing the menu; otherwise the menu is shown. `selected` is the
   * drop-down's selection once its items are set.
   */
  function Created(names: seq<string>, arg: Option<seq<string>>, s: LauncherState,
                   instantiable: nat -> bool): (r: LauncherState)
    requires Consistent(|names|, s)
    ensures Consistent(|names|, r)
    ensures r.selected == s.selected && r.disposals == s.disposals
  {
    if arg.Some? && |arg.value| > 0 && FindEntry(names, arg.value[0]).Some? then
      Started(s, FindEntry(names, arg.value[0]).value, instantiable)
    else
      s.(screen := Menu)
  }

  /**
   * `exitCurrentExample()`: show the menu, dispose the example that was running and
   * select its entry in the drop-down.
   */
  function Exited(s: LauncherState): (r: LauncherState)
    requires s.screen.Running?
    ensures r.screen == Menu
    ensures r.selected == s.screen.entry
    ensures r.disposals == s.disposals + [s.screen]
  {
    LauncherState(Menu, s.screen.entry, s.disposals + [s.screen])
  }

  /** The menu screen's `render`: ENTER starts the selection, then UP and DOWN move it. */
  function MenuFrame(n: nat, s: LauncherState, keys: Keys, instantiable: nat -> bool): (r: LauncherState)
    requires n > 0 && Consistent(n, s)
    ensures Consistent(n, r) && r.disposals == s.disposals
  {
    var s1 := if keys.enter then SelectedRun(s, instantiable) else s;
    var s2 := if keys.up then s1.(selected := Up(s1.selected, n)) else s1;
    if keys.down then s2.(selected := Down(s2.selected, n)) else s2
  }

  /**
   * The game's `render()`: BACKSPACE leaves a running example, and then the current
   * screen renders; only the menu's rendering is part of the model.
   */
  function Frame(n: nat, s: LauncherState, keys: Keys, instantiable: nat -> bool): (r: LauncherState)
    requires n > 0 && Consistent(n, s)
    ensures Consistent(n, r)
  {
    var s1 := if s.screen.Running? && keys.backspace then Exited(s) else s;
    if s1.screen == Menu then MenuFrame(n, s1, keys, instantiable) else s1
  }

  /** `dispose()`: dispose the active screen, if any, and leave no screen. */
  function ShutDown(s: LauncherState): (r: LauncherState)
    ensures r.screen == NoScreen && r.selected == s.selected
    ensures r.disposals == s.disposals + (if s.screen == NoScreen then [] else [s.screen])
  {
    s.(screen := NoScreen,
       disposals := if s.screen == NoScreen then s.disposals else s.disposals + [s.screen])
  }

  // ---------------------------------------------------------------------------------
  // Properties

  /**
   * At start-up: an argument that names an instantiable entry runs the first entry of that
   * name; an argument naming an entry that cannot be instantiated leaves the screen as it
   * was; an absent, empty or unknown argument shows the menu.
   */
  lemma StartUpArgument(names: seq<string>, arg: Option<seq<string>>, s: LauncherState,
                        instantiable: nat -> bool)
    requires Consistent(|names|, s)
    ensures var r := Created(names, arg, s, instantiable);
      if arg.Some? && |arg.value| > 0 && arg.value[0] in names then
        exists k :: 0 <= k < |names| && names[k] == arg.value[0] &&
          (forall j :: 0 <= j < k ==> names[j] != arg.value[0]) &&
          r.screen == (if instantiable(k) then Running(k) else s.screen)
      else r.screen == Menu
  {
    if arg.Some? && |arg.value| > 0 && arg.value[0] in names {
      var k := FindEntry(names, arg.value[0]).value;
      assert names[k] == arg.value[0];
    }
  }

  /**
   * Starting the selected entry from the menu with ENTER and then pressing BACKSPACE
   * returns to the menu with that entry selected, the example disposed exactly once.
   */
  lemma LaunchAndReturn(n: nat, s: LauncherState, instantiable: nat -> bool)
    requires n > 0 && Consistent(n, s)
    requires s.screen == Menu && s.selected >= 0 && instantiable(s.selected)
    ensures var running := Frame(n, s, Keys(false, true, false, false), instantiable);
      running.screen == Running(s.selected) &&
      Frame(n, running, Keys(true, false, false, false), instantiable) ==
        LauncherState(Menu, s.selected, s.disposals + [Running(s.selected)])
  {
  }

  /**
   * A frame disposes a screen only when an example is running and BACKSPACE was just
   * pressed, and then exactly that example; without BACKSPACE a running example keeps
   * the screen and the selection.
   */
  lemma ExitOnlyOnBackspace(n: nat, s: LauncherState, keys: Keys, instantiable: nat -> bool)
    requires n > 0 && Consistent(n, s)
    ensures var r := Frame(n, s, keys, instantiable);
      r.disposals == s.disposals + (if s.screen.Running? && keys.backspace then [s.screen] else []) &&
      (s.screen.Running? && !keys.backspace ==> r == s)
  {
  }

  /**
   * A menu frame where only UP (or only DOWN) was pressed moves the selection to the
   * previous (or next) entry with wrap-around, and changes nothing else.
   */
  lemma MenuArrowKeys(n: nat, s: LauncherState, instantiable: nat -> bool)
    requires n > 0 && Consistent(n, s)
    ensures MenuFrame(n, s, Keys(false, false, true, false), instantiable) == s.(selected := Up(s.selected, n))
    ensures MenuFrame(n, s, Keys(false, false, false, true), instantiable) == s.(selected := Down(s.selected, n))
  {
  }

  /**
   * With no screen (as after a start-up argument whose entry cannot be instantiated)
   * frames change nothing: there is no menu to pick from and no example to leave.
   */
  lemma NoScreenFramesAreInert(n: nat, s: LauncherState, keys: Keys, instantiable: nat -> bool)
    requires n > 0 && Consistent(n, s) && s.screen == NoScreen
    ensures Frame(n, s, keys, instantiable) == s
  {
  }

  // ---------------------------------------------------------------------------------
  // The object

  /** `ExampleRunner`: the game object whose callbacks drive the launcher. */
  class ExampleRunner {
    /** The static registry, by simple name. */
    const names: seq<string>
    /** The command-line arguments; `None` stands for a null array. */
    const arg: Option<seq<string>>
    /** Whether reflective instantiation of each entry succeeds (false: a caught exception). */
    const instantiable: nat -> bool
    var screen: Screen
    var selected: int
    ghost var disposals: seq<Screen>

    ghost function State(): LauncherState
      reads this
    {
      LauncherState(screen, selected, disposals)
    }

    ghost predicate Valid()
      reads this
    {
      |names| > 0 && Consistent(|names|, State())
    }

    /** `new ExampleRunner(arg)` over a non-empty registry; nothing is shown yet. */
    constructor (names: seq<string>, arg: Option<seq<string>>, instantiable: nat -> bool)
      requires |names| > 0
      ensures Valid()
      ensures this.names == names && this.arg == arg && this.instantiable == instantiable
      ensures State() == LauncherState(NoScreen, -1, [])
    {
      this.names := names;
      this.arg := arg;
      this.instantiable := instantiable;
      screen := NoScreen;
      selected := -1;
      disposals := [];
    }

    /** `getExample(simpleName)`: a search through the registry in order. */
    method GetExample(simpleName: string) returns (r: Option<nat>)
      ensures r == FindEntry(names, simpleName)
    {
      var i := 0;
      while i < |names|
        invariant 0 <= i <= |names|
        invariant forall j :: 0 <= j < i ==> names[j] != simpleName
      {
        if names[i] == simpleName {
          return Some(i);
        }
        i := i + 1;
      }
      return None;
    }

    /**
     * `create()`: the drop-down is filled (its resulting selection is
     * `initialSelection`), then the start-up argument is looked at.
     */
    method Create(initialSelection: int)
      requires Valid() && -1 <= initialSelection < |names|
      modifies this
      ensures Valid()
      ensures State() == Created(names, arg, old(State()).(selected := initialSelection), instantiable)
    {
      selected := initialSelection;
      if arg.Some? && |arg.value| > 0 {
        var specified := GetExample(arg.value[0]);
        if specified.Some? {
          StartExample(specified.value);
          return;
        }
      }
      screen := Menu;
    }

    /** `runSelectedExample()`, also what the start button's listener calls. */
    method RunSelectedExample()
      requires Valid()
      modifies this
      ensures Valid()
      ensures State() == SelectedRun(old(State()), instantiable)
    {
      if selected < 0 {
        return;
      }
      StartExample(selected);
    }

    /** `startExample(k)`: on a failed instantiation the screen is left unchanged. */
    method StartExample(k: nat)
      requires Valid() && k < |names|
      modifies this
      ensures Valid()
      ensures State() == Started(old(State()), k, instantiable)
    {
      if instantiable(k) {
        screen := Running(k);
      }
    }

    /** `exitCurrentExample()`, reached only while an example is the screen. */
    method ExitCurrentExample()
      requires Valid() && screen.Running?
      modifies this
      ensures Valid()
      ensures State() == Exited(old(State()))
    {
      var exited := screen;
      screen := Menu;
      disposals := disposals + [exited];
      selected := exited.entry;
    }

    /** The menu screen's `render(delta)`. */
    method RenderMenu(keys: Keys)
      requires Valid()
      modifies this
      ensures Valid()
      ensures State() == MenuFrame(|names|, old(State()), keys, instantiable)
    {
      if keys.enter {
        RunSelectedExample();
      }
      if keys.up {
        selected := Up(selected, |names|);
      }
      if keys.down {
        selected := Down(selected, |names|);
      }
    }

    /** `render()`: the exit trigger, then the current screen's rendering. */
    method Render(keys: Keys)
      requires Valid()
      modifies this
      ensures Valid()
      ensures State() == Frame(|names|, old(State()), keys, instantiable)
    {
      if screen.Running? && keys.backspace {
        ExitCurrentExample();
      }
      if screen == Menu {
        RenderMenu(keys);
      }
    }

    /** `dispose()`: the active screen is disposed and no screen remains. */
    method Dispose()
      requires Valid()
      modifies this
      ensures Valid()
      ensures State() == ShutDown(old(State()))
    {
      var exited := screen;
      if exited != NoScreen {
        disposals := disposals + [exited];
      }
      screen := NoScreen;
    }
  }
}
