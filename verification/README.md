# cesiumTest core in Dafny

This project models the two pieces of logic in the Cesium/three.js wind-turbine
viewer that can be stated exactly.

- **The `.env` loader** (js/env-loader.js). The text is split at every line feed.
  Blank lines and comment lines are skipped. Every other line is cut at its first
  `=` (only when that `=` is not the line's first character). Key and value are
  trimmed. The value loses at most one leading and at most one trailing quote,
  each only when present. The pairs are stored in turn, so a later key overwrites
  an earlier one. A failed response or a thrown exception gives the empty
  configuration.
- **The `CesiumThreeIntegration` class** (js/cesium-three-integration.js):
  - the `initialized` guard;
  - `init`'s scene and camera set-up;
  - the per-frame copy of the globe camera into the overlay camera;
  - window resizing;
  - `addTurbineModel`: option merging with defaults, placement of tower, nacelle
    and rotor, the three blade angles, and the rotor's `animate(delta)` hook.

Modules:

- `Optional`: the `Option` type.
- `Text`: the JavaScript string operations the parser uses: `trim`, `indexOf`,
  `split`. Each comes with an independent characterisation.
- `EnvLoader`: the line parser, the fold into a dictionary, and the loader. It also
  holds the as-written plain-object store described under Findings.
- `EnvExamples`: a worked example file, parsed line by line.
- `Geometry`: `Vec3`, `Math.PI` and the degree/radian conversion.
- `Turbine`: option merge, turbine construction, rotor animation.
- `CesiumThree`: the integration object as a state machine. The three.js objects it
  creates are recorded as data, and each `render` call as a `Frame`. The group
  `addTurbineModel` returns is the object it puts into the scene; the model names
  it by its position in the scene, so animating it changes what later frames draw.

Arithmetic is exact on `real`. `Math.PI` is the rational value of the double
nearest to pi.

## Model

| member | source | states |
|---|---|---|
| Text.TrimSpec | js/env-loader.js:22 | `trim` is empty exactly when the text is all whitespace; otherwise it is an infix with no whitespace at either end and only whitespace around it |
| Text.TrimUnique | js/env-loader.js:27-28 | any infix with non-space ends and only whitespace around it is the trimmed text |
| Text.TrimmedIsFixed | js/env-loader.js:27 | a text without surrounding whitespace is its own trim |
| Text.TrimKeepsFirst | js/env-loader.js:22 | a text that starts with a non-space character keeps it as its trimmed first character |
| Text.TrimIgnoresTrailingSpace | js/env-loader.js:22 | one more whitespace character at the end does not change the trim |
| Text.IndexOf | js/env-loader.js:25 | -1 exactly when the character is absent; otherwise the position of its first occurrence |
| Text.IndexOfAfter | js/env-loader.js:25 | in a prefix free of the character followed by the character, the first occurrence is right after the prefix |
| Text.IndexOfAppendOther | js/env-loader.js:25 | appending a different character does not change the first occurrence |
| Text.Split | js/env-loader.js:20 | `split` gives at least one piece; no piece holds the separator; joining the pieces gives back the text |
| Text.SplitJoin | js/env-loader.js:20 | splitting separator-free pieces joined by the separator gives back those pieces |
| EnvLoader.StripQuotes | js/env-loader.js:30 | at most one leading and one trailing quote are removed; the rest is an unchanged infix; the trailing one goes exactly when a quote ends what is left after the leading one |
| EnvLoader.StripQuotesOfQuoted | js/env-loader.js:30 | a value between two quote characters, matched or not, loses exactly those two |
| EnvLoader.StripQuotesUnquoted | js/env-loader.js:30 | a value that neither starts nor ends with a quote is unchanged |
| EnvLoader.StripQuotesLoneQuote | js/env-loader.js:30 | a value made of one quote becomes empty |
| EnvLoader.ParseLine | js/env-loader.js:22-31 | a line gives no entry exactly when it is blank, a comment, has no `=`, or starts with `=` |
| EnvLoader.ParseLineSpec | js/env-loader.js:25-28 | an entry is cut at the line's first `=`; its key has no `=` and no surrounding whitespace |
| EnvLoader.SplitAtFirstEquals | js/env-loader.js:25-28 | in `k=v` with an `=`-free key, every later `=` stays in the value |
| EnvLoader.PlainLine | js/env-loader.js:22-30 | a line `k=v` whose key is unpadded, `=`-free and does not start with `#`, and whose value is unpadded, assigns the value without its quotes to `k` |
| EnvLoader.EmptyKeyAfterIndent | js/env-loader.js:26-27 | `"  =v"` passes the `> 0` test and assigns the empty key |
| EnvLoader.CarriageReturnIgnored | js/env-loader.js:22-28 | a trailing carriage return changes nothing |
| EnvLoader.StoreAllKeys | js/env-loader.js:20-32 | the stored keys are exactly the keys of some entry |
| EnvLoader.StoreAllLastWins | js/env-loader.js:20-32 | every stored value is that of the last entry with its key |
| EnvLoader.StoreAllInert | js/env-loader.js:22 | an absent entry can be removed from anywhere |
| EnvLoader.ParseLinesKeys | js/env-loader.js:20-32 | the keys of the result are exactly those some line assigns |
| EnvLoader.ParseLinesLastWins | js/env-loader.js:20-32 | every value in the result comes from the last line that assigns its key |
| EnvLoader.InertLine | js/env-loader.js:22 | a blank, comment or `=`-less line can be removed from the file without effect |
| EnvLoader.ParseAppendLine | js/env-loader.js:20-31 | appending a line stores that line's entry on top of the earlier result |
| EnvLoader.ParseLinesEmptyIff | js/env-loader.js:20-34 | the result is empty exactly when no line assigns anything |
| EnvLoader.ParseKeys | js/env-loader.js:16-34 | the keys of the parsed text are exactly those some line of `split("\n")` assigns |
| EnvLoader.ParseLastWins | js/env-loader.js:16-34 | every value of the parsed text comes from the last line of `split("\n")` that assigns its key |
| EnvLoader.Load | js/env-loader.js:10-38 | a successful response gives the parsed body (dictionary store); a failed response or an exception gives the empty map |
| EnvLoader.LoadAsWrittenDropsProto | js/env-loader.js:10-38 | the loader with the plain-object store gives what `Load` gives, less the key `__proto__` |
| EnvLoader.LoadEmptyIff | js/env-loader.js:10-38 | the loader gives the empty map exactly when the request failed or no line of the body assigns anything |
| EnvExamples.ParseExample | js/env-loader.js:20-30 | `FOO="bar"`, a comment and `BAZ=qux` give `{FOO: bar, BAZ: qux}` |
| EnvLoader.AsWrittenDropsProto | js/env-loader.js:17-30 | storing into a plain object gives the dictionary result minus the key `__proto__` |
| EnvLoader.ProtoLineLost | js/env-loader.js:17-30 | a one-line file assigning `__proto__` gives an empty plain object; the dictionary keeps the entry |
| Geometry.RadiansToDegrees | js/cesium-three-integration.js:98 | converting to degrees and back gives the same angle; the sign is kept |
| Geometry.DegreesRoundTrip | js/cesium-three-integration.js:98 | converting to radians and back gives the same number of degrees |
| Geometry.RightAngleIsNinety | js/cesium-three-integration.js:98 | `Math.PI / 2` radians is 90 degrees |
| Turbine.Merge | js/cesium-three-integration.js:111-118 | each supplied option wins; each missing one defaults to 120, 90, 0xffffff and 0.01 |
| Turbine.MergeNothing | js/cesium-three-integration.js:111-118 | no options give the defaults |
| Turbine.MergeEverything | js/cesium-three-integration.js:118 | supplying every option reproduces it exactly |
| Turbine.MergeKeysIndependent | js/cesium-three-integration.js:118 | supplying any one of the four keys changes that field of the configuration and no other |
| Turbine.Blades | js/cesium-three-integration.js:186-196 | exactly three blades, all the same white profile, blade `i` turned by `i` thirds of a turn |
| Turbine.Build | js/cesium-three-integration.js:121-207 | the turbine is at the given position; its tower has the configured height and is centred at (0, height/2, 0); the 10x5x5 nacelle is at (0, height+2.5, 0); the rotor is at (0, height, 3) with a radius-2 hub and three blades; the rotor starts unturned at the configured speed |
| Turbine.TowerSpansHeight | js/cesium-three-integration.js:124-130 | the tower goes from the group's base to the configured height, on the turbine's vertical axis |
| Turbine.NacelleAndRotorOnTop | js/cesium-three-integration.js:133-144 | the nacelle rests on the tower top; the rotor is at (0, tower top, 3), in front of the nacelle |
| Turbine.BladesEvenlySpaced | js/cesium-three-integration.js:192-196 | blade angles are 0, 2 pi/3 and 4 pi/3, a third of a turn apart, and close the circle |
| Turbine.PartColours | js/cesium-three-integration.js:125-190 | tower and nacelle take the configured colour; the hub is 0x666666; the blades are white |
| Turbine.TallTurbine | js/cesium-three-integration.js:129-138 | with height 200 the tower centre is at 100 and the nacelle at 202.5 |
| Turbine.Animate | js/cesium-three-integration.js:199-202 | the rotation grows by speed times delta; nothing else changes; it never decreases for nonnegative speed and delta |
| Turbine.AnimateHook | js/cesium-three-integration.js:199-202 | the stored hook throws exactly when `this` is the `userData` object; bound to the rotor group it adds speed times delta to the rotation |
| Turbine.HookOnUserDataThrows | js/cesium-three-integration.js:199-202 | called as `rotorGroup.userData.animate(delta)`, the hook of a built turbine throws a `TypeError` |
| Turbine.HookOnGroupIsAnimate | js/cesium-three-integration.js:199-202 | bound to the rotor group, the hook is `Animate` |
| Turbine.AnimateTurbine | js/cesium-three-integration.js:199-202 | animating turns only the rotor |
| Turbine.AnimateAccumulates | js/cesium-three-integration.js:200-202 | two calls add up to one call with the summed delta |
| Turbine.AnimateZeroAndUndo | js/cesium-three-integration.js:200-202 | delta 0 is a no-op, and a negative delta undoes a positive one |
| Turbine.AnimateDefaultTen | js/cesium-three-integration.js:199-202 | at the default speed, delta 10 turns a new rotor by 0.1 |
| CesiumThree.New | js/cesium-three-integration.js:5-13 | a new integration is not initialised |
| CesiumThree.Init | js/cesium-three-integration.js:27-64 | after `init`: initialised; the scene holds the two lights; the camera has a 45-degree fov and planes 1 and 10000 |
| CesiumThree.OnWindowResize | js/cesium-three-integration.js:68-74 | before `init` nothing changes; afterwards only the camera's aspect changes |
| CesiumThree.SyncCamera | js/cesium-three-integration.js:83-100 | the overlay camera takes the globe position; it looks along the globe direction; its fov in radians equals the globe's; near and far are copied; aspect is kept |
| CesiumThree.OnCesiumPreRender | js/cesium-three-integration.js:76-105 | before `init` nothing changes; afterwards the camera is synchronised and one frame of the unchanged scene is rendered with it |
| CesiumThree.AddTurbineModel | js/cesium-three-integration.js:108-212 | afterwards the object is initialised, the built turbine is the last scene node and is returned; when not yet initialised, the state is built from `init` first |
| CesiumThree.SyncForgetsPrevious | js/cesium-three-integration.js:94-100 | after a frame, two overlay cameras are equal exactly when their aspect ratios were |
| CesiumThree.SyncIdempotent | js/cesium-three-integration.js:94-100 | synchronising twice from the same globe camera is synchronising once |
| CesiumThree.RightAngleFieldOfView | js/cesium-three-integration.js:98 | a globe fov of pi/2 becomes 90 degrees |
| CesiumThree.IdleBeforeInit | js/cesium-three-integration.js:68-105 | before `init`, no sequence of resizes and frames, in any interleaving, changes the state |
| CesiumThree.ReplayKeepsScene | js/cesium-three-integration.js:68-105 | after `init`, any interleaving of resizes and frames keeps the scene, keeps the earlier frames, and adds one frame of the unchanged scene per globe frame |
| CesiumThree.ReplayAspect | js/cesium-three-integration.js:68-74 | after `init` and any events, the camera's aspect ratio is that of the last resize, or the initial one when there was none |
| CesiumThree.LastFrameCamera | js/cesium-three-integration.js:68-105 | after `init` and any events, the next globe frame is drawn with the unchanged scene, from the globe camera's position, with its field of view and planes, and with the aspect ratio of the last resize (or the initial one) |
| CesiumThree.AnimateNode | js/cesium-three-integration.js:199-212 | animating the group `addTurbineModel` returned turns the rotor of that turbine's scene node, since the two are one object; no other node, the camera or the frames change |
| CesiumThree.AnimatedTurbineIsRendered | js/cesium-three-integration.js:104-212 | a turbine added and then animated is drawn turned in the next frame, its rotor advanced by speed times delta |
| CesiumThree.AddedTurbineIsRendered | js/cesium-three-integration.js:104-210 | a turbine added before a frame is drawn in that frame, from the globe camera's position |

## Left out

- `fetch`, the `window.ENV_VARIABLES` assignment and the `env-variables-loaded` event (js/env-loader.js:9, 43-47) are I/O. The response is the `FetchResult` input of `EnvLoader.Load`.
- The console messages (js/env-loader.js:11, 36) have no effect on the result.
- Text.IsSpace: JavaScript's `trim` also removes no-break space, the byte order mark, Unicode space separators and the line and paragraph separators. The model uses the fixed set space, tab, line feed, vertical tab, form feed and carriage return.
- Turbine.Merge: an option key that is present but `undefined`, or holds a non-number, is not modelled. A supplied key is a number.
- All three.js construction details are foreign library calls with no visible semantics: geometry tessellation, materials, the bezier blade outline and its extrusion, the renderer and its WebXR flag, and the DOM container.
- `camera.lookAt` and `updateProjectionMatrix` are library matrix code (js/cesium-three-integration.js:72, 95, 101). The model records the point looked at, not the resulting orientation.
- CesiumThree.OnWindowResize: the renderer's `setSize` and the window size reads are DOM work. The new aspect ratio is a parameter.
- CesiumThree.Init: the listener registrations for `resize` and `preRender` are left out, and so is the effect of calling `init` twice (lines 57-62). In the model, a frame or resize is an explicit call.
- Turbine.Animate: models the hook called with `this` bound to the rotor group. No code in the repository calls it. The call through `userData`, where it is stored, is modelled by `Turbine.AnimateHook` (see Findings).
- CesiumThree.AddTurbineModel: returns the turbine as a value, not as a reference. The object it shares with the scene is named by its position in the scene, and `CesiumThree.AnimateNode` animates it there. `Event` holds only the two registered listeners, since nothing in the repository drives `animate`.
- `setupVRButton` (js/cesium-three-integration.js:216-241) is WebXR session and UI handling.
- js/app.js is not part of this model: it is Cesium viewer configuration and UI.
- EnvLoader.Load: uses the corrected dictionary store, so for a body that assigns `__proto__` it keeps that key where the source's plain object loses it. `EnvLoader.LoadAsWritten` is the loader as written, and `EnvLoader.LoadAsWrittenDropsProto` states the only difference.
- IEEE-754 rounding: all arithmetic is exact on reals. The only floating-point value kept is `Math.PI`, as the exact value of its double.

## Findings

| source | as written | input that shows it | evidently intended | confidence | as-written member | corrected member |
|---|---|---|---|---|---|---|
| js/env-loader.js:17-30 | the result is a plain object `{}`. `variables["__proto__"] = value` runs the inherited `__proto__` setter, which ignores a string, so the entry is silently dropped | the file `__proto__=x` | every key a line assigns is present in the result | medium, not executed | EnvLoader.ProtoLineLost | EnvLoader.ParseLinesKeys |
| js/cesium-three-integration.js:199-202 | the `animate` hook is stored on `rotorGroup.userData` and uses `this.rotation`. Called where it is stored, `this` is `userData`, which has no `rotation`, so reading `this.rotation.z` throws a `TypeError` | `turbine.children[2].userData.animate(0.016)` on a turbine returned by `addTurbineModel` | each call turns the rotor group by speed times delta | low, not executed; no caller in the repository | Turbine.HookOnUserDataThrows | Turbine.Animate |
