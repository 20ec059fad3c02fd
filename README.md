# Wedding invitation page: countdown, slideshow and firework bookkeeping

This project models the three pieces of `nenmatu/script.js` that hold logic and not just
DOM or animation wiring. Their properties are proved in Dafny.

- **Countdown** (`initCountdown`, its inner `tick` and `pad`). The time left until
  2025-10-15T11:00:00+07:00 (the constant `Target`, 1 760 500 800 000 ms since the epoch)
  is split into days, hours, minutes and seconds by successive floor division and
  remainder. Each part is shown through `String(n).padStart(2, '0')`. At or after the
  target all four fields show `"00"` and the interval is cleared. "Now" is an input. The
  clock is a value (`Clock`: the shown breakdown plus a `Running`/`Stopped` timer), and
  the interval's firings are a function over a sequence of instants.
  Files: `decimal.dfy`, `countdown.dfy`.
- **Slideshow** (`startSlides`). Each group of more than one slide gets a `Slideshow`
  object. It holds the captured slide list, as an `array<bool>` of `active` marks, and
  the `index` the closure updates. `Tick` moves the mark to the next slide, wrapping
  around. File: `slides.dfy`.
- **Fireworks** (`initFireworks`: `spawnFirework` and `update`, limited to array upkeep
  and spawn gating). `Scene` holds `particles`, `trails` and `lastSpawn`. Its methods
  follow the source's loops:
  - the `push` loop of a burst;
  - the `forEach` that ages each particle and leaves a trail point;
  - the two backward `splice` sweeps.

  `Update` is proved equal to the pure frame function `Step`. The lemmas about `Step`
  state the invariant, the spawn gate and what the sweeps keep. Files: `fireworks.dfy`,
  with the generic order-preserving filter in `filtering.dfy`.

The spawn guard only checks `particles.length < 520` before adding 48 particles, so right
after a spawn decision there can be up to 519 + 48 = 567 particles (`Capacity`), not 520.

## Model

| member | source | states |
|---|---|---|
| Decimal.Digits | nenmatu/script.js:155 | `String(n)` is a non-empty string of decimal digits, one character exactly when n < 10, with no leading zero when n > 0 |
| Decimal.DigitsValue | nenmatu/script.js:155 | reading the digits of `String(n)` back gives n |
| Decimal.PadStart | nenmatu/script.js:155 | `padStart(width, fill)` gives a string of length max(\|s\|, width) that ends in s and has only fill characters before it |
| Decimal.Pad | nenmatu/script.js:155 | `pad(n)` has at least two digits; for n < 10 it is `'0'` followed by the digit, otherwise the digits of n unchanged (three-digit days are not cut) |
| Decimal.PadValue | nenmatu/script.js:155 | a padded field reads back as the number it shows |
| Decimal.PadInjective | nenmatu/script.js:155 | different numbers give different padded fields |
| Countdown.Split | nenmatu/script.js:164-167 | for diff > 0 the parts satisfy hours < 24, minutes < 60, seconds < 60, days unbounded, and d·86400000 + h·3600000 + m·60000 + s·1000 + r = diff with 0 ≤ r < 1000 |
| Countdown.SplitUnique | nenmatu/script.js:164-167 | that breakdown is the only one with those bounds: any normal breakdown within the last second before diff equals it |
| Countdown.Breakdown | nenmatu/script.js:158-167 | for diff ≤ 0 every part is 0; otherwise the exact bounded breakdown |
| Countdown.Show | nenmatu/script.js:168 | the four field texts are all digits and each at least two characters long |
| Countdown.ShowRead | nenmatu/script.js:168 | reading the four fields back gives the breakdown that was written |
| Countdown.ShowZero | nenmatu/script.js:160 | the all-zero breakdown is shown as `"00"` in every field |
| Countdown.RenderExact | nenmatu/script.js:158-168 | before the target the fields read back as the exact breakdown of target − now; from the target on they all show `"00"` |
| Countdown.RenderExample | nenmatu/script.js:149-168 | one day, two hours, three minutes and four seconds before the target the fields show `"01"`, `"02"`, `"03"`, `"04"` |
| Countdown.Tick | nenmatu/script.js:156-169 | a running clock shows the breakdown of target − now and stops exactly when now ≥ target; a stopped clock is unchanged |
| Countdown.Start | nenmatu/script.js:148-171 | initialising renders at once and leaves the interval running exactly when the target is still ahead; when it is not, the fields show `"00"` |
| Countdown.StoppedIsFinal | nenmatu/script.js:159-162 | once the interval is cleared, any later sequence of ticks changes nothing |
| Countdown.TargetStops | nenmatu/script.js:159-162 | if any tick falls at or after the target, the clock ends stopped with all fields `"00"` |
| Countdown.RunningBeforeTarget | nenmatu/script.js:163-171 | while every tick is before the target the interval keeps running, and the fields depend only on the latest tick |
| Countdown.InitAsWritten | nenmatu/script.js:156-171 | as written, initialising at or after the target throws a ReferenceError after writing `"00"` and before any interval is installed; before the target it equals `Start` |
| Countdown.InitAsWrittenThrowsAtTarget | nenmatu/script.js:161-171 | at the target instant the code as written throws, while `Start` stops cleanly with `"00"` |
| Slides.Next | nenmatu/script.js:288 | the new index stays below the group size; it is index + 1, or 0 after the last slide |
| Slides.NextN | nenmatu/script.js:286-288 | after any number of ticks the index is still a valid slide position |
| Slides.AdvanceMovesMark | nenmatu/script.js:287-291 | if only the current slide is marked, afterwards only the next slide is marked, and no other slide's mark changes |
| Slides.OnlyActiveIsMarked | nenmatu/script.js:287-291 | "exactly slide k is active" is the same as the marks being true at k and false elsewhere |
| Slides.NextNShift | nenmatu/script.js:286-288 | k ≤ n ticks move the index k places on, wrapping once |
| Slides.Period | nenmatu/script.js:286-288 | after n ticks the index of an n-slide group is back where it started |
| Slides.Slideshow.constructor | nenmatu/script.js:284-285 | a rotator starts at index 0 over a group of more than one slide |
| Slides.Slideshow.Tick | nenmatu/script.js:286-292 | one firing sets index := (index + 1) mod n, clears the old slide's mark and sets the new one's, and keeps a single mark single: afterwards exactly the new index is marked |
| Slides.Rotating | nenmatu/script.js:281-284 | only groups with more than one slide get a timer |
| Slides.StartSlides | nenmatu/script.js:280-294 | exactly one fresh rotator per group with more than one slide, in document order, each at index 0; groups with at most one slide get none |
| Filtering.Filter | nenmatu/script.js:356-358 | what a sweep keeps is no longer than its input, holds only elements that pass, and holds every element that passes |
| Filtering.FilterAppend | nenmatu/script.js:356-358 | filtering distributes over concatenation, so survivors keep their relative order |
| Filtering.FilterMultiset | nenmatu/script.js:356-358 | each kept value occurs as often as before, and every other value is gone |
| Filtering.SweepStep | nenmatu/script.js:347-350 | one backward `splice` step keeps or removes the element at i so that the kept part of the suffix from i lies behind the unvisited prefix |
| Fireworks.Burst | nenmatu/script.js:318-325 | a burst is exactly 48 particles, each with life 0 and a lifetime in [70, 100) |
| Fireworks.StepKeepsGood | nenmatu/script.js:329-363 | a frame keeps the between-frames invariant: at most 519 + 48 particles, each with life ≥ 0, a lifetime in [70, 100) and not yet expired; every trail point visible |
| Fireworks.StepNewborns | nenmatu/script.js:318-325 | after a frame the particles with life 0 are exactly the last 48 when a burst was spawned, and there are none otherwise |
| Fireworks.StepSpawnGate | nenmatu/script.js:359-362 | the array grows or `lastSpawn` changes only when t − lastSpawn > 950 and fewer than 520 particles are live, and then `lastSpawn` becomes t; within 950 units nothing is added; conversely, when that gate is open after the sweeps exactly one burst is appended behind the survivors and `lastSpawn` becomes t, and when it is closed the survivors alone remain and `lastSpawn` is kept |
| Fireworks.StepSweeps | nenmatu/script.js:347-358 | the particles kept are exactly the aged ones with life < max, with their multiplicities; the trail keeps exactly the faded points with alpha ≥ 0.03 |
| Fireworks.AlphaFalls | nenmatu/script.js:337-338 | a particle's drawn alpha falls with each frame of age and is ≤ 0 once life ≥ max |
| Fireworks.TrailStep | nenmatu/script.js:347-350 | one backward trail step fades the point at i, then keeps or splices it so that the kept faded suffix lies behind the unvisited prefix |
| Fireworks.Scene.constructor | nenmatu/script.js:312-328 | the pool starts with no particles, no trail points and `lastSpawn` 0 |
| Fireworks.Scene.SpawnFirework | nenmatu/script.js:314-326 | the `push` loop appends exactly the 48 particles of one burst behind the existing ones |
| Fireworks.Scene.AgeAll | nenmatu/script.js:333-345 | every particle's life rises by exactly 1, and one trail point per particle, with alpha 1 − life/max, is appended in particle order |
| Fireworks.Scene.SweepTrails | nenmatu/script.js:347-355 | afterwards the trail is exactly the faded points with alpha ≥ 0.03, in their original order |
| Fireworks.Scene.SweepParticles | nenmatu/script.js:356-358 | afterwards the particles are exactly those with life < max, in their original order |
| Fireworks.Scene.Update | nenmatu/script.js:329-363 | one frame turns the state into `Step` of the old state and keeps the invariant |

## Left out

- Everything else in `nenmatu/script.js` is not modelled. That covers the intro gate and
  its URL skip flag, the GSAP and Lottie timelines, confetti, the RSVP cooldown,
  `flashMessage`, the audio toggle, the bouquet timer, and the petal and heart spawners.
  These are DOM, timer and third-party-library wiring with no logic to state.
- Scheduling is not modelled. `setInterval`, `setTimeout` and `requestAnimationFrame` are
  replaced by explicit calls with the time as a parameter. The canvas fade-in and
  fade-out timers at 1.2 s and 12 s are left out.
- Canvas drawing and particle physics are left out: positions, velocities, gravity, hue,
  size, the `resize` handler and every `ctx` call.
- Floating point is modelled by exact reals. Rounding in `1 - life / max`, in
  `alpha *= 0.92` and in `70 + Math.random() * 30` is left out.
- Randomness is an input. The 48 draws behind a burst's lifetimes are the `rolls`
  parameter, which `Update` receives on every frame and uses only when it spawns.
- The target is the constant `Target`. Parsing the date string is not modelled.
- `Decimal.Digits` gives positional digits for every n. JavaScript's `String(n)` switches
  to exponent notation at 10^21 and above, far beyond any day count here.
- `Slides.Slideshow.Tick` and `Slides.AdvanceMovesMark` only promise a single active
  slide if there was one before. Which slides the page's markup marks active at start is
  not part of this model.
- The countdown's fields and the slide marks stand in for DOM nodes. A missing element
  (`if (!dEl) return`) is not modelled.

## Findings

| source | as written | input that shows it | evidently intended | confidence | as-written member | corrected member |
|---|---|---|---|---|---|---|
| nenmatu/script.js:161-171 | `tick()` first runs on line 170, before `const timer` on line 171 is initialised. When that first tick finds `diff <= 0`, `clearInterval(timer)` reads the binding in its temporal dead zone and throws a ReferenceError. The throw escapes `initCountdown` and aborts the rest of `runMainAnimations` (lines 137-144): no hearts, GSAP card animations, RSVP handler, Lottie, slideshow, fireworks, bouquet or card petals. With `?skipIntro` the `catch` on line 24 swallows the throw and falls through to the gated intro flow; without GSAP the click handler throws before line 32, so the intro overlay stays over the card | loading the page at or after 2025-10-15T11:00:00+07:00, i.e. now = `Target` | show `"00"` in every field and install no interval, without throwing | high (from the language's `const` semantics; not executed) | Countdown.InitAsWrittenThrowsAtTarget | Countdown.Start |
