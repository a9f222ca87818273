# gdx-cclibs: full-screen fader and example launcher

This project models two pieces of sequential logic of the gdx-cclibs toolkit and proves
properties of them.

- **`FullScreenFader`** (module `Graphics`, `full_screen_fader.dfy`). This is a full-viewport
  overlay. It is held fully opaque for `delay` seconds. Then it fades out over `fadeTime`
  seconds, and after that it draws nothing. The spec function `Rendered` describes one
  call of `render(deltaTime)` as a function on a `FaderState` value. The class
  `FullScreenFader` has the source's fields, and its `Render` method is proved equal to
  that function. `Run` chains frames, and the lemmas about runs rely on it.
- **`ExampleRunner`** (module `Runner`, `example_runner.dfy`). This is the demo application's
  launcher. It holds a non-empty registry of entries, a drop-down selection and the active
  screen (`Menu`, `Running(k)` or `NoScreen`). The spec functions `Created`, `Started`,
  `SelectedRun`, `Exited`, `MenuFrame`, `Frame` and `ShutDown` describe the callbacks, and
  the class `ExampleRunner` implements each one against its function.

How the model abstracts the source:

- Times are `real`. Every frame takes a `deltaTime >= 0`.
- The easing curve `Interpolation.fade` is a parameter `curve: real -> real` of the fader.
  Nothing is assumed about its values. The model only proves that its argument lies
  in [0, 1).
- GPU work becomes bookkeeping: a `shaderBuilt` flag and ghost counters for shader builds,
  draw calls and shader disposals.
- A registry entry is its index. `names[k]` is the simple class name of entry `k`.
  Reflective instantiation is a per-entry factory `instantiable: nat -> bool`. `false` stands
  for the two exceptions `startExample` catches: `InstantiationException` and
  `IllegalAccessException`.
- The drop-down selection is an `int` in [-1, n), where -1 means "nothing selected"; this
  matches `getSelectedIndex`. UP and DOWN use Java's truncating `%`, written out as `JavaRem`.
- A frame's keyboard state is a `Keys` input, one flag per key: BACKSPACE, ENTER, UP and DOWN.
  Clicking the start button is a direct call of `RunSelectedExample`.

Behaviour of the code worth noting:

- `startExample` does not dispose the screen it replaces. `setScreen` only swaps it.
- A start-up argument can name an entry whose instantiation fails. `create` then returns
  before it shows the menu, so no screen is shown (`StartUpArgument`). After that, no frame
  changes anything (`NoScreenFramesAreInert`).
- No closed form of `Interpolation.fade` is assumed.

## Model

| member | source | states |
|---|---|---|
| `Graphics.Initial` | covetools/src/main/java/com/cyphercove/gdx/covetools/graphics/FullScreenFader.java:59-71 | A new fader keeps the given delay and fade time, and its colour's r, g, b as given with alpha 1. The fade clock is at 0. No shader exists yet and nothing has been drawn. |
| `Graphics.FullScreenFader.WithColor` | covetools/src/main/java/com/cyphercove/gdx/covetools/graphics/FullScreenFader.java:61-71 | The three-argument constructor produces exactly `Initial(delay, fadeTime, initialColor)`. |
| `Graphics.FullScreenFader.constructor` | covetools/src/main/java/com/cyphercove/gdx/covetools/graphics/FullScreenFader.java:73-75 | The two-argument constructor produces the same state as the three-argument one given opaque black. |
| `Graphics.FadeProgress` | covetools/src/main/java/com/cyphercove/gdx/covetools/graphics/FullScreenFader.java:98-109 | On any frame that reaches the division (clock below the fade time), the curve's argument `elapsed / fadeTime` lies in [0, 1). |
| `Graphics.Rendered` | covetools/src/main/java/com/cyphercove/gdx/covetools/graphics/FullScreenFader.java:97-121 | A frame keeps the state consistent: the clock is non-negative and the shader exists exactly when it was built. It never moves the clock backwards, and it leaves the fade time and disposals alone. |
| `Graphics.FullScreenFader.Render` | covetools/src/main/java/com/cyphercove/gdx/covetools/graphics/FullScreenFader.java:97-121 | After the method, the object's state equals `Rendered` of its old state. This covers the terminal guard, the delay decrement, the alpha, the lazy shader, one draw and the clock update. |
| `Graphics.FullScreenFader.CreateShader` | covetools/src/main/java/com/cyphercove/gdx/covetools/graphics/FullScreenFader.java:77-95 | Building a shader sets the shader flag and counts one more build. Nothing else changes. |
| `Graphics.Run` | covetools/src/main/java/com/cyphercove/gdx/covetools/graphics/FullScreenFader.java:97-121 | Consistency survives any sequence of frames with non-negative times. The fade time stays fixed and the clock never decreases. |
| `Graphics.FinishedFrameIsInert` | covetools/src/main/java/com/cyphercove/gdx/covetools/graphics/FullScreenFader.java:98-99 | Once `elapsed >= fadeTime`, a frame changes nothing: it leaves delay, clock and colour alone and draws nothing. |
| `Graphics.FinishedRunIsInert` | covetools/src/main/java/com/cyphercove/gdx/covetools/graphics/FullScreenFader.java:98-99 | A finished fader stays identical through any number of further frames. |
| `Graphics.NonPositiveFadeTimeIsInert` | covetools/src/main/java/com/cyphercove/gdx/covetools/graphics/FullScreenFader.java:98-109 | If `fadeTime <= 0` at construction, every run of frames leaves the initial state untouched. The division by the fade time is therefore never reached. |
| `Graphics.DelayCountdown` | covetools/src/main/java/com/cyphercove/gdx/covetools/graphics/FullScreenFader.java:101-103 | On an unfinished frame, the delay drops by `deltaTime` exactly when it was positive; otherwise it is unchanged. The quad is drawn once. |
| `Graphics.DelayGatesFadeClock` | covetools/src/main/java/com/cyphercove/gdx/covetools/graphics/FullScreenFader.java:101-120 | If the decremented delay is still positive, alpha is exactly 1 and the clock does not move. Otherwise the clock advances by exactly `deltaTime`, with no correction for overshoot, and alpha is `1 - curve(elapsed / fadeTime)`. |
| `Graphics.HoldWhileDelayRemains` | covetools/src/main/java/com/cyphercove/gdx/covetools/graphics/FullScreenFader.java:101-120 | Suppose alpha is 1 (as at construction) and the frame times add up to less than the remaining delay. Then the clock stands still, alpha stays 1 and the delay is still positive after the whole run. |
| `Graphics.ExpiredDelayStaysPut` | covetools/src/main/java/com/cyphercove/gdx/covetools/graphics/FullScreenFader.java:101-103 | Once the delay is `<= 0`, no run of frames ever modifies it again. |
| `Graphics.OnlyAlphaChanges` | covetools/src/main/java/com/cyphercove/gdx/covetools/graphics/FullScreenFader.java:109 | Any run of frames leaves r, g and b of the colour unchanged. Only alpha changes. |
| `Graphics.ShaderBuiltLazily` | covetools/src/main/java/com/cyphercove/gdx/covetools/graphics/FullScreenFader.java:111-112 | The first unfinished frame builds the shader. A frame builds it only if it does not exist yet. |
| `Graphics.ShaderBuiltAtMostOnce` | covetools/src/main/java/com/cyphercove/gdx/covetools/graphics/FullScreenFader.java:111-112 | From a state with at most one build, where the shader exists exactly when something was drawn, any run of frames keeps both facts. |
| `Graphics.ShaderBuiltAtMostOnceFromStart` | covetools/src/main/java/com/cyphercove/gdx/covetools/graphics/FullScreenFader.java:111-112 | From construction, any run of frames builds the shader at most once, and it exists exactly when something was drawn. |
| `Graphics.Disposed` | covetools/src/main/java/com/cyphercove/gdx/covetools/graphics/FullScreenFader.java:123-126 | `dispose` releases the shader exactly when it exists and changes nothing else. |
| `Graphics.FullScreenFader.Dispose` | covetools/src/main/java/com/cyphercove/gdx/covetools/graphics/FullScreenFader.java:123-126 | After the method, the object's state equals `Disposed` of its old state. |
| `Graphics.DisposeBeforeRender` | covetools/src/main/java/com/cyphercove/gdx/covetools/graphics/FullScreenFader.java:123-126 | Disposing a fader that never rendered releases nothing and leaves its state as constructed. |
| `Runner.FindFrom` | examples/core/src/com/cyphercove/gdx/ExampleRunner.java:83-87 | The search from position `from` returns the first later entry with the name. It returns none exactly when no later entry has it. |
| `Runner.FindEntry` | examples/core/src/com/cyphercove/gdx/ExampleRunner.java:82-88 | `getExample(name)` returns the first registered entry whose name equals `name`. It returns none exactly when no entry has that name. |
| `Runner.ExampleRunner.GetExample` | examples/core/src/com/cyphercove/gdx/ExampleRunner.java:82-88 | The search loop returns exactly `FindEntry(names, name)`. |
| `Runner.Up` | examples/core/src/com/cyphercove/gdx/ExampleRunner.java:139-140 | UP gives an index in [0, n). 0 maps to n-1, any other index i to i-1, and "no selection" to n-2 (0 when n = 1). |
| `Runner.Down` | examples/core/src/com/cyphercove/gdx/ExampleRunner.java:141-142 | DOWN gives an index in [0, n). n-1 maps to 0, and every other index i, "no selection" included, maps to i+1. |
| `Runner.UpDownInverse` | examples/core/src/com/cyphercove/gdx/ExampleRunner.java:139-142 | On [0, n), UP and DOWN undo each other. |
| `Runner.Started` | examples/core/src/com/cyphercove/gdx/ExampleRunner.java:97-106 | If instantiation succeeds, the new instance of entry k becomes the screen. If it fails with one of the two caught exceptions, the whole state is unchanged. |
| `Runner.ExampleRunner.StartExample` | examples/core/src/com/cyphercove/gdx/ExampleRunner.java:97-106 | After the method, the state equals `Started` of the old state. |
| `Runner.SelectedRun` | examples/core/src/com/cyphercove/gdx/ExampleRunner.java:90-95 | With no selection nothing changes. With a selection, the selected entry becomes the screen if it can be instantiated; otherwise nothing changes. Selection and disposals are kept. |
| `Runner.ExampleRunner.RunSelectedExample` | examples/core/src/com/cyphercove/gdx/ExampleRunner.java:90-95 | After the method, the state equals `SelectedRun` of the old state. |
| `Runner.Created` | examples/core/src/com/cyphercove/gdx/ExampleRunner.java:64-72 | The start-up branch keeps the state consistent and leaves selection and disposals unchanged. |
| `Runner.StartUpArgument` | examples/core/src/com/cyphercove/gdx/ExampleRunner.java:64-72 | If the argument names a registered entry, the first entry of that name becomes the screen, or the screen stays as it was if instantiation fails; the menu is not shown. An absent, empty or unknown argument shows the menu. |
| `Runner.ExampleRunner.Create` | examples/core/src/com/cyphercove/gdx/ExampleRunner.java:64-72 | After the method, the state equals `Created` from the widget's initial selection. |
| `Runner.Exited` | examples/core/src/com/cyphercove/gdx/ExampleRunner.java:108-114 | Exiting shows the menu, disposes the exited example (appended once to the disposals) and selects its entry. |
| `Runner.ExampleRunner.ExitCurrentExample` | examples/core/src/com/cyphercove/gdx/ExampleRunner.java:108-114 | After the method, the state equals `Exited` of the old state. |
| `Runner.MenuFrame` | examples/core/src/com/cyphercove/gdx/ExampleRunner.java:133-143 | The menu's frame (ENTER, then UP, then DOWN) keeps the selection and any running entry inside the registry. It disposes nothing. |
| `Runner.MenuArrowKeys` | examples/core/src/com/cyphercove/gdx/ExampleRunner.java:139-142 | A menu frame with only UP pressed sets the selection to `Up(selected, n)`, and one with only DOWN pressed to `Down(selected, n)`; nothing else changes. |
| `Runner.ExampleRunner.RenderMenu` | examples/core/src/com/cyphercove/gdx/ExampleRunner.java:133-143 | After the method, the state equals `MenuFrame` of the old state. |
| `Runner.Frame` | examples/core/src/com/cyphercove/gdx/ExampleRunner.java:76-80 | The game's frame keeps the launcher state consistent. |
| `Runner.ExampleRunner.Render` | examples/core/src/com/cyphercove/gdx/ExampleRunner.java:76-80 | After the method, the state equals `Frame` of the old state. |
| `Runner.ExitOnlyOnBackspace` | examples/core/src/com/cyphercove/gdx/ExampleRunner.java:77-78 | A frame disposes something only when an example is running and BACKSPACE was just pressed, and then exactly that example. Without BACKSPACE, a running example keeps the whole state. |
| `Runner.LaunchAndReturn` | examples/core/src/com/cyphercove/gdx/ExampleRunner.java:108-114 | From the menu with entry k selected and instantiable, an ENTER frame runs k. A following BACKSPACE frame returns to the menu with k selected and k disposed exactly once. |
| `Runner.NoScreenFramesAreInert` | examples/core/src/com/cyphercove/gdx/ExampleRunner.java:76-80 | With no screen, frames change nothing. |
| `Runner.ShutDown` | examples/core/src/com/cyphercove/gdx/ExampleRunner.java:116-121 | `dispose` disposes the active screen if there is one and leaves no screen. The selection is kept. |
| `Runner.ExampleRunner.Dispose` | examples/core/src/com/cyphercove/gdx/ExampleRunner.java:116-121 | After the method, the state equals `ShutDown` of the old state. |
| `Runner.ExampleRunner.constructor` | examples/core/src/com/cyphercove/gdx/ExampleRunner.java:36-38 | A new runner over a non-empty registry shows no screen and has no selection. |

## Left out

- GPU and GL calls are not modelled; they are framework calls. This covers mesh construction and `setVertices`, shader compilation, the uniform lookup, `glEnable`/`glBlendFunc`, `mesh.render` and `shader.begin/end/setUniformf`. They appear only as the shader flag and the ghost counters.
- The mesh is never disposed by `dispose()`. The model has no mesh, so this leak goes unmodelled.
- The body of `Interpolation.fade` is not modelled; it is library code. As a result, the model does not prove that alpha never increases or that it reaches exactly 0 at the end of the fade.
- IEEE float rounding is not modelled. Times are exact reals, and negative frame times are excluded by precondition.
- `Graphics.ShaderBuiltAtMostOnce`: covers shader builds by frames only. `createShader` is public, and an outside call builds a new program every time; the model counts such calls without bounding them.
- Using the shader after `dispose()` is not modelled. A later `render` would reuse the disposed program, but the model does not record disposal on the shader itself.
- The UI toolkit is not modelled: `Stage`, `Skin`, `Table`, `SelectBox`, `TextButton`, listeners, viewport resizing, `glClear`, and the menu's `show`/`resize`/`pause`/`resume`/`hide`/`dispose`. Routing the input processor to the stage is left out too.
- The drop-down's selection right after `setItems` is widget behaviour. `Create` therefore takes it as a parameter.
- `Game.setScreen`'s `hide`/`show`/`resize` callbacks are framework behaviour. Setting the screen is modelled as an assignment.
- The running examples' own `render` is not modelled; it is outside this code.
- Runner.Started: models only success and the two caught exceptions. Other failures of `newInstance()`, such as an exception from the example's constructor or an `ExceptionInInitializerError`, are not caught by `startExample`; they propagate out of `create()` or `render()` and are not modelled.
- Reflection (`newInstance`, `getSimpleName`) becomes a name table and a per-entry success flag. Registry entries are taken to be distinct classes. `printStackTrace` logging is dropped.
- Keyboard polling (`isKeyJustPressed`) is not modelled. The keys pressed on a frame are an input.
- Runner.ExampleRunner.ExitCurrentExample: requires an example to be the screen, so two exception paths of the public method are not modelled. With no screen, `.getClass()` on line 113 throws a NullPointerException. With the menu as the screen, lines 110-112 set and dispose the menu and the cast on line 113 then throws a ClassCastException. The guard on line 77 only calls it while an example is the screen.
- Disposal of `spriteBatch` and `skin` in `dispose()` is a resource release with no state in the model.
- `LiveWallpaperListener.java` is an interface of three callbacks with no logic. It is not part of this model.
- Name matching is exact `seq<char>` equality, as with Java's `String.equals`.
