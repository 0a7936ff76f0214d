# G1OS state machines in Dafny

A model of the stateful parts of G1OS (the `macliteos` tree) and proofs about them. Each file is one
module and follows one source file or one part of it.

| file | what it models |
|---|---|
| `Wrappers.dfy`, `Numbers.dfy` | an option type, bytes, minimum and maximum |
| `Geometry.dfy`, `Region.dfy` | rectangles; simplification and coverage of damage regions |
| `Scene.dfy`, `Damage.dfy`, `Repaint.dfy` | what the compositor paints at every pixel; which pixels a change can touch; a damage-only repaint |
| `Animation.dfy` | what an animation tick does to windows and notifications, and which of its changes it damages |
| `Compositor.dfy`, `Session.dfy` | the compositor's event handlers as a class, and its event loop |
| `ZOrder.dfy`, `Stacking.dfy` | the intrusive window list, relinked in place, against a sequence |
| `EffectReduction.dfy` | the responsiveness guard that lowers the effects mode |
| `Versions.dfy`, `DriverChoice.dfy` | the version order and the choice of the newest usable driver release |
| `Paths.dfy`, `StoreWalk.dfy`, `Rollback.dfy`, `Destinations.dfy` | snapshot, install and rollback over a file map; which directories the rollback walk lists; which destinations it can restore |
| `PageFlip.dfy` | two scanout buffers and an asynchronous kernel |
| `Reassembly.dfy`, `InstallerGate.dfy` | the installer's line reassembly and its stage machine |
| `Terminal.dfy` | the terminal's grid, parser and scrollback ring |
| `TextEdit.dfy` | the line-array editor as one text |
| `Png.dfy` | PNG row filters, the chunk walk and the script's writer |
| `Edid.dfy`, `Brightness.dfy`, `StageMatch.dfy` | the EDID table, backlight arithmetic, the boot-stage matcher |

Code that changes things step by step is a class or a method with loops; its contracts tie the new state
to a function of the old one, and the lemmas are about that function. What the system answers (which
flips are accepted, what a pipe returns, which writes succeed, which directories open and in which order
they are listed, what animations report) enters as
arguments, so every statement is for all answers. The linked list of `ZOrder` and the compositor's
list share the functions of `Stacking`. `Session.Run`, `Rollback.AnyRunThenRollback`,
`PageFlip.AnyRun`, `InstallerGate.AnyRun` and `Terminal.ShowText` speak about whole runs.

## Where the code does not do what is claimed for it

The model keeps the code as it is. These claims fail; each has its condition proved, or a family of inputs.

- The coverage test of a region gives up at 64 rectangles on a scanline and then answers yes
  (`Region.WideBoxMisjudged`); the widths for which it is exact are those below 64 (`Region.ExactWidths`).
- A window paints independently of the clip exactly if its ink stays inside its frame
  (`Scene.ClipFreeIffInkInFrame`); a shadow does not. So a damage-only frame is exact at the pixels no
  visible window spills over or scales across (`Repaint.DamageOnlyIsFull`).
- When the front window goes or a new one comes, the other's title bar changes outside the damage
  (`Damage.RemovedFrontLeavesStaleTitle`); the damage suffices exactly if that window shows its focus
  nowhere outside it (`Damage.RemovalExactly`, `Damage.ArrivalExactly`).
- The frame in which a slide-in reaches its end, and every change by which one notification moves another,
  can go undamaged (`Animation.SlideInSlips`). A tick's damage suffices exactly if outside it the same
  slots paint before and after (`Animation.NoticeTickExactly`), in an undamaged tick exactly if no slot
  moves onto or off a pixel (`Animation.SlipsExactly`).
- A new window shows, a closed one goes, a notification is freed and maximizing takes effect only if an
  animation could be started for it (`Compositor.OpensExactly`, `Compositor.ClosesExactly`,
  `Animation.NoticeStays`); undoing a maximization does not bring the window back
  (`Compositor.UnmaximizedExactly`).
- A commit that does not report a pixel it changes, and a bottom window that drops the others, leave it
  stale; the pixels an event leaves stale are `Session.Marks`, and all others keep up (`Session.Run`).
- Releasing the last window loses the back pointer, and the next bottom window then loses the list
  (`ZOrder.LostStack`), exactly then (`Compositor.EnteredKeepsExactly`).
- Versions with suffixes form a cycle (`Versions.SuffixCycle`); the choice is the newest release for every
  catalog exactly if the order is consistent on its versions (`DriverChoice.NewestForEveryCatalog`).
- The caveat shown beside a chosen release can belong to a superseded one
  (`DriverChoice.CaveatOfAnother`; exactly when is `DriverChoice.CaveatIsOfTheChoice`), and a chosen testing release is reported as not selected
  (`DriverChoice.PassedOverIsExplained`).
- Reassembly loses bytes for some chunking exactly if a line is overlong
  (`Reassembly.FaithfulForEveryChunking`); the final terminator falls outside a full buffer
  (`Reassembly.Reader.Flush`), which four full reads without a newline leave (`Reassembly.FillThenFlush`).
- A line after a failure line can trap the installer for good (`InstallerGate.TrapExactly`,
  `InstallerGate.TrapIsPermanent`); Complete can follow a failure (`InstallerGate.FailureThenComplete`),
  exactly one read after the backend's end was reported (`InstallerGate.ForgivenExactly`);
  Retry can erase a disk nobody confirmed (`InstallerGate.RetryErasesAnother`); Repair asks for no
  confirmation (`InstallerGate.RepairStartsUnconfirmed`); when a started run has consent is
  `InstallerGate.ConsentExactly`; ticking the box already starts the installation
  (`InstallerGate.TickStartsErase`).
- The terminal indexes past its arrays in exactly two cases (`Terminal.FaultExactly`) and ignores a lone
  parameter (`Terminal.LoneParameterIgnored`).
- The editor's Enter loses text beyond column 4095 (`TextEdit.EnterInserts`), and joining a line to one in
  which something was deleted loses it (`TextEdit.BackspaceJoins`, `TextEdit.DeleteThenJoinLoses`).
- A percentage is read back as set exactly with 100 steps or more (`Brightness.RoundTripsIff`).
- A rollback reports success although a directory of the store did not open, or a destination is hidden
  or named like a marker (`Destinations.LoneRollback`); a store with too many subdirectories side by side
  is walked in part (`StoreWalk.WalkExactly`), and so is a listing cut short. `Rollback.RunRestoresExactly` says exactly when a
  successful rollback restores everything, `Destinations.NamesExactly` for which destinations.
- The list of missing boot stages can grow as the log grows (`StageMatch.ExtensionCanHide`), exactly if
  a stage was found behind a missing one (`StageMatch.ExtensionKeepsExactly`).

## Model

| member | source | states |
|---|---|---|
| Geometry.MeetsIffSharedPixel | macliteos/core/src/region.c:47-54 | two non-empty rectangles intersect exactly if they share a pixel |
| Region.Simplify | macliteos/core/src/region.c:215-229 | the sweep budget suffices: the result is pairwise disjoint, every input rectangle lies inside one result rectangle, nothing leaves the bound |
| Region.SimplifyPass | macliteos/core/src/region.c:174-213 | one sweep keeps every rectangle inside some rectangle and the bound; if it removes nothing the region is disjoint |
| Region.WithinKeepsCover | macliteos/core/src/region.c:171-173 | a region whose rectangles lie inside another's covers no more pixels |
| Region.CoversRect | macliteos/core/src/region.c:56-85 | the exact answer: every scanline is covered or touched by 64 rectangles |
| Region.NarrowBoxExact | macliteos/core/src/region.c:56-85 | on a disjoint region plus one rectangle, boxes narrower than 64 are judged exactly |
| Region.ExactWidths | macliteos/core/src/region.c:56-85 | the widths judged exactly on all such regions are precisely those below 64 |
| Region.WideBoxMisjudged | macliteos/core/src/region.c:56-85 | every comb of 64 or more separate teeth passes for a covered line |
| Region.DisjointHits | macliteos/core/src/region.c:56-85 | disjoint rectangles touch a scanline at most as often as the box is wide |
| Region.SortSpans | macliteos/core/src/region.c:56-85 | the insertion sort of intervals keeps their points and sorts them |
| Region.Sweep | macliteos/core/src/region.c:56-85 | the sweep over sorted intervals says exactly whether the line is covered |
| Scene.ClipFreeIffInkInFrame | macliteos/compositor/comp.c:309-341 | painting an unscaled window is independent of the clip exactly if its ink stays in its frame |
| Scene.PlainIsClipFree | macliteos/compositor/comp.c:286-341 | without shadow, and large enough for its decoration, a window paints independently of the clip |
| Scene.NoticesClipFree | macliteos/compositor/comp.c:343-370 | in PERFORMANCE mode notifications paint independently of the clip |
| Scene.SmoothScene | macliteos/compositor/comp.c:394-416 | a pixel that no visible window scales across or spills over, and on which no notification casts a shadow, has the same colour under every clip that has it, whatever the rest of the scene |
| Scene.SettledIsSmooth | macliteos/compositor/comp.c:286-370 | with plain windows and no shadows that is every pixel |
| Scene.HitIsPaintedLast | macliteos/compositor/comp.c:748-763 | the window found at a point is the last one painted there, over whatever lies behind it |
| Scene.TargetCentred | macliteos/compositor/comp.c:326-331 | a scaled blit has the scaled size, rounded down, and is centred on its window |
| Damage.SceneUnchanged | macliteos/compositor/comp.c:394-416 | two scenes that differ only in windows away from a pixel agree at it |
| Damage.WindowChangeSound | macliteos/compositor/comp.c:615-626 | changing one window leaves the scene alone outside its old and new reach |
| Damage.FocusChangeSound | macliteos/compositor/comp.c:794-807 | raising and focusing leaves it alone outside the two windows' reach |
| Damage.RemovalSound | macliteos/compositor/comp.c:648-662 | removing a window changes no pixel outside its reach at which the next front window does not show its focus |
| Damage.RemovalExactly | macliteos/compositor/comp.c:648-662 | removing the front window changes nothing outside its reach, for all painters, exactly if the next window shows its focus nowhere outside it |
| Damage.ArrivalSound | macliteos/compositor/comp.c:898-934 | a window arriving in front changes no pixel outside its reach at which the old front one does not show its focus |
| Damage.ArrivalExactly | macliteos/compositor/comp.c:898-934 | and nothing at all outside its reach exactly if the old front one shows its focus nowhere there |
| Damage.ArrivalBehindSound | macliteos/compositor/comp.c:596-606 | a window arriving behind changes nothing outside its reach |
| Damage.NoticeChangeSound | macliteos/compositor/comp.c:863-881 | at pixels without a notification's shadow before and after, a change of the notifications shows only in the invalidated area, in every mode |
| Damage.NoticesExactly | macliteos/compositor/comp.c:343-370 | a change of the notifications keeps the colour of such a pixel, for all painters, exactly if it leaves the slots painted there alone |
| Animation.GlideLands | macliteos/compositor/comp.c:691-706 | a geometry animation ends exactly at its own rectangle, without a jump, because each side of the target is where the window is or where the animation ends; every tick keeps that |
| Animation.NoticeTickExactly | macliteos/compositor/comp.c:714-730 | the damage of a tick covers every smooth pixel its notifications change, for all painters, exactly if outside it the same slots paint before and after |
| Animation.SlipsExactly | macliteos/compositor/comp.c:714-730 | in PERFORMANCE mode a tick that damages nothing changes what a pixel shows of the notifications exactly if some slot moves onto or off it |
| Animation.SlideInSlips | macliteos/compositor/comp.c:714-717 | for every notification that still slides in and every pixel of its final box: the tick that ends the slide damages nothing, and some painter shows the difference |
| Animation.FadeScales | macliteos/compositor/comp.c:685-689 | while a fade runs the opacity is what it reports and the scale rises with it from 0.94 to 1, unless the window closes |
| Animation.NoticeFreedExactly | macliteos/compositor/comp.c:720-729 | a notification is freed exactly when its closing animation has ended |
| Animation.NoticeStays | macliteos/compositor/comp.c:725-728 | one whose closing animation could not be started is freed by no tick |
| Animation.TickedRefMeans | macliteos/compositor/comp.c:648-671 | a reference to a window outlives a tick exactly if the window does |
| Damage.RemovedFrontLeavesStaleTitle | macliteos/compositor/comp.c:648-662 | for any two far-apart titled windows, a pixel outside the damage changes both when the front one goes and when it comes |
| Repaint.PaintClip | macliteos/compositor/comp.c:403-416 | the scene pass writes every pixel of the clip and none outside it |
| Repaint.PresentRegion | macliteos/compositor/comp.c:394-439 | every pixel ends as the scene pass and then one pointer pass leave it |
| Repaint.DamageOnlyIsFull | macliteos/compositor/comp.c:394-502 | at every smooth pixel that is not stale, or is repainted, a guarded damage-only repaint gives the full repaint with the pointer blended once |
| Repaint.PointerDrawnOnce | macliteos/compositor/comp.c:418-502 | at every pixel, smooth or not, the guarded repaint blends the pointer exactly once, over the scene painted under some clip, and leaves the scene without it where the pointer was |
| Repaint.TracksStep | macliteos/compositor/comp.c:222-230 | damage and stale pixels that cover every changed pixel, and every pixel that becomes smooth, keep the framebuffer in step |
| Compositor.Compositor.Replace | macliteos/compositor/comp.c:615-626 | old and new box of a window are damaged, the timer is armed and the framebuffer stays in step |
| Compositor.Compositor.Drag | macliteos/compositor/comp.c:997-1006 | a drag request adds dx and dy to the origin of exactly that window, an opening one too, keeps its size, and keeps the framebuffer in step |
| Compositor.Compositor.Place | macliteos/compositor/comp.c:1007-1016 | a place request puts its origin at (x, y); a window scaled while it opens is scaled about its new place; the framebuffer stays in step |
| Compositor.Compositor.ClientResize | macliteos/compositor/comp.c:957-974 | a resize request gives it the new size and contents where it is; the framebuffer stays in step |
| Compositor.Compositor.Commit | macliteos/compositor/comp.c:936-956 | a commit replaces the contents, of an opening window too; what it changes without reporting it becomes stale, nothing else, and the framebuffer stays in step |
| Compositor.CommitSound | macliteos/compositor/comp.c:936-956 | at a smooth pixel a commit changes nothing outside the rectangles it reports and the pixels it fails to report |
| Compositor.Compositor.SetMode | macliteos/compositor/comp.c:1033-1045 | a mode change repaints the screen |
| Compositor.Compositor.SwitchWorkspace | macliteos/compositor/comp.c:853-861 | a workspace change repaints the screen |
| Compositor.Compositor.Notify | macliteos/compositor/comp.c:863-881 | a notification takes the first free slot, or the first one, and arms the timer; stale becomes exactly what other slots change outside the invalidated area; the framebuffer stays in step |
| Compositor.Compositor.FocusWin | macliteos/compositor/comp.c:794-807 | focusing raises the window, marks both and damages both; the back pointer follows as in z_raise |
| Compositor.Compositor.ToggleMaximize | macliteos/compositor/comp.c:809-824 | maximising and restoring keep the framebuffer in step |
| Compositor.MaximizedFills | macliteos/compositor/comp.c:809-824 | maximizing heads for the whole width between the top margin and the dock |
| Compositor.UnmaximizedExactly | macliteos/compositor/comp.c:809-824 | undoing it heads for the former target exactly if that was one fixed rectangle |
| Compositor.Compositor.MinimizeWin | macliteos/compositor/comp.c:826-839 | minimising hides the window, hands the focus on and keeps the framebuffer in step |
| Compositor.MinimizedHides | macliteos/compositor/comp.c:826-839 | the minimized window does not show any more |
| Compositor.MinimizedHandsOn | macliteos/compositor/comp.c:836-838 | the foremost other window that shows and can take the focus is raised and has it; without one nothing else changes |
| Compositor.Compositor.CloseWin | macliteos/compositor/comp.c:639-646 | closing marks the window once and starts its fade if there is an animation for it |
| Compositor.ClosesExactly | macliteos/compositor/comp.c:639-646 | a closed window is hidden at once and released by the tick that ends its fade exactly if an animation could be started |
| Compositor.Compositor.ClientGone | macliteos/compositor/comp.c:884-891 | a disconnect closes exactly the client's windows, counts their fades and keeps the framebuffer in step |
| Compositor.Compositor.PointerMove | macliteos/compositor/comp.c:1126-1172 | a pointer move damages both pointer boxes; the dragged window, listed or not, keeps its size and the pointer its place in it; the corner of a resized one follows the pointer inside the limits; nothing else moves; with nothing held the window under the pointer becomes the hovered one |
| Compositor.FollowedMeans | macliteos/compositor/comp.c:1143-1156 | so for every list, drag, resize and pair of pointer positions |
| Compositor.Compositor.ButtonDown | macliteos/compositor/comp.c:1214-1252 | a press focuses, captures, drags, resizes or acts on a decoration button of the window hit |
| Compositor.DecoButtonExactly | macliteos/compositor/comp.c:765-773 | the three title-bar buttons are where they are drawn, inside the title bar, and nowhere else |
| Compositor.OnDecoExactly | macliteos/compositor/comp.c:748-763 | a window that is hit is hit on its title bar or in its contents, and a press counts as one on the decoration exactly in the first case |
| Compositor.Compositor.ButtonUp | macliteos/compositor/comp.c:1214-1252 | a release ends drag, resize and capture |
| Compositor.Compositor.NewWindow | macliteos/compositor/comp.c:898-934 | a new window is listed in front or behind with a fresh identity; a bottom window without a back pointer becomes the whole list; stale becomes exactly where the former front window shows its focus, or where the dropped windows may show; the framebuffer stays in step |
| Compositor.OpensExactly | macliteos/compositor/comp.c:630-637 | after its opening fade a new window shows unscaled exactly if an animation could be started |
| Compositor.CascadeSteps | macliteos/compositor/comp.c:898-934 | new windows of one size step down to the right in a cycle of six |
| Compositor.EnteredKeepsExactly | macliteos/compositor/comp.c:596-606 | no window drops out of the list exactly if the new one is not a bottom window, or there is a back pointer, or no other window |
| Compositor.Compositor.ReleaseWin | macliteos/compositor/comp.c:648-671 | releasing removes exactly that window and every reference to it, and loses the back pointer exactly if the back window was the last; stale becomes exactly where the next front window shows its focus; the framebuffer stays in step |
| Compositor.Compositor.TickWindows | macliteos/compositor/comp.c:673-708 | the animation loop steps every window once, also when windows are released during it; stale becomes exactly where a window that comes to the front by the releases shows its focus |
| Compositor.Compositor.TickNotices | macliteos/compositor/comp.c:709-731 | the notification loop steps every slot once; stale becomes exactly where slots change outside the damage |
| Compositor.Compositor.AnimTick | macliteos/compositor/comp.c:673-731 | every window and notification takes its step, with exactly those pixels more stale; the framebuffer stays in step and the timer armed |
| Compositor.Compositor.FrameTick | macliteos/compositor/comp.c:732-736 | a frame, whatever is released in it, ends with every smooth pixel that is not stale exact, and nothing stale under the damage it had; one with no animation left and no damage leaves the timer disarmed |
| Compositor.Compositor.GuardPointer | macliteos/compositor/comp.c:463-497 | after the guard the damage covers where the pointer was and is, whatever was reported |
| Compositor.Compositor.RepaintDamage | macliteos/compositor/comp.c:448-504 | in step before, every smooth pixel that is not stale exact after; nothing painted is stale; the pointer is drawn once at every pixel of the screen |
| Compositor.Compositor.Pace | macliteos/compositor/comp.c:505-560 | the timer is armed whenever something is left to draw, also after an effect reduction announced itself |
| Compositor.Compositor.Present | macliteos/compositor/comp.c:448-560 | a framebuffer in step stays in step, every smooth pixel that is not stale exact unless the effects were just reduced; a frame without damage and animation changes nothing and disarms |
| Compositor.Compositor.IdleIsUpToDate | macliteos/compositor/comp.c:448-460 | with no damage a framebuffer in step is the full repaint at every smooth pixel that is not stale |
| Compositor.Compositor.SettledIsExact | macliteos/compositor/comp.c:448-460 | and without scaled windows or shadows at every pixel |
| Session.Handle | macliteos/compositor/comp.c:893-1094 | every event, a client's disconnect included, takes the specified step of the window list, the back pointer and the pointer, leaves stale at most what it marks, and keeps timer, references and the framebuffer in step |
| Session.Run | macliteos/compositor/comp.c:893-1252 | the run goes through exactly the specified steps; whatever the events are the framebuffer stays in step through all frames, and an idle compositor shows the full repaint at every smooth pixel that is not stale, in a settled scene without stale pixels everywhere; no two listed windows share an identity |
| Session.NothingStale | macliteos/compositor/comp.c:893-1252 | events that mark nothing leave nothing stale: after a run of them only what was stale at the start still can be |
| Session.StepHomed | macliteos/compositor/comp.c:673-839 | every event keeps each glide on its way to its target, so over every run no geometry animation ends off it |
| Session.TitleDrag | macliteos/compositor/comp.c:1126-1252 | over any pointer moves and frames after a press on a title bar, the pointer keeps its place in the window and the window its size |
| ZOrder.Stack.Raise | macliteos/compositor/comp.c:580-594 | raising puts the window first and keeps the others in order |
| ZOrder.Stack.PushBottom | macliteos/compositor/comp.c:596-606 | appends if the back pointer is set, otherwise the list becomes that one window |
| ZOrder.Stack.Release | macliteos/compositor/comp.c:648-662 | removes exactly the window and clears every reference; says exactly when the back pointer is lost |
| ZOrder.Stack.WinAt | macliteos/compositor/comp.c:748-763 | the walk finds the first window under the point |
| ZOrder.LostStack | macliteos/compositor/comp.c:596-606 | release of the tail, then a bottom window: the remaining windows are lost |
| EffectReduction.Governor.Frame | macliteos/hardware/hwprobe.c:268-284 | one frame updates streak and mode as specified |
| EffectReduction.StreakIsBestSuffix | macliteos/hardware/hwprobe.c:268-284 | the streak is the greatest slow-minus-fast count over suffixes since the last reduction |
| EffectReduction.ReducesAtThreshold | macliteos/hardware/hwprobe.c:268-284 | a reduction happens exactly when that count reaches 30 |
| EffectReduction.ReductionsAreRare | macliteos/hardware/hwprobe.c:268-284 | each reduction costs 30 slow frames of its own, at most two happen |
| EffectReduction.ModeIsMonotone | macliteos/hardware/hwprobe.c:268-284 | the mode never goes back, and pinned it never moves |
| Versions.VersionCmp | macliteos/hardware/driver.c:82-118 | the pointer loop computes the recursive order |
| Versions.CmpAntisymmetric | macliteos/hardware/driver.c:82-118 | the order is antisymmetric on all strings |
| Versions.DottedOrder | macliteos/hardware/driver.c:82-118 | on dotted numbers it is the lexicographic order of the components |
| Versions.LexTransitive | macliteos/hardware/driver.c:64-68 | that order is transitive |
| Versions.LexMeans | macliteos/hardware/driver.c:82-118 | that order is decided at the first component that differs, or by where one version ends |
| Versions.UnknownFirst | macliteos/hardware/driver.c:84-85 | an unknown version comes before every known one |
| Versions.SuffixPlaces | macliteos/hardware/driver.c:69-80 | a suffix puts any dotted version before the plain one exactly if it marks a pre-release, otherwise after |
| Versions.MarksPrerelease | macliteos/hardware/driver.c:69-80 | the eight marks count behind any separators and in any case |
| Versions.SuffixCycle | macliteos/hardware/driver.c:69-80 | for every number, -rc1, plain and -maclite form a cycle |
| DriverChoice.RequiresOk | macliteos/hardware/driver.c:499-546 | holds exactly if every term does; keeps the last term that could not be confirmed |
| DriverChoice.RequiresMeans | macliteos/hardware/driver.c:536-543 | for every list of terms about known dotted versions, exactly if each relation holds between the component values |
| DriverChoice.OperatorsPair | macliteos/hardware/driver.c:517-543 | on known versions of any form the operators are complementary pairs; an unknown version meets everything, what cannot be observed nothing |
| DriverChoice.LaterMeets | macliteos/hardware/driver.c:536-543 | a later version still meets every lower bound, an earlier one every upper bound |
| DriverChoice.PickNamed | macliteos/hardware/driver.c:700-736 | the running best, the exact set of remarks and the caveat |
| DriverChoice.ChoiceExists | macliteos/hardware/driver.c:700-736 | nothing is chosen exactly if nothing is eligible |
| DriverChoice.PickMeets | macliteos/hardware/driver.c:700-736 | a chosen release has every relation it asks for, and one for the machine is unsuitable exactly if it is broken or lacks one |
| DriverChoice.NewestForEveryCatalog | macliteos/hardware/driver.c:697-736 | earliest entry of the greatest version for every catalog exactly if the order is consistent |
| DriverChoice.DottedPick | macliteos/hardware/driver.c:697-736 | so for every catalog of dotted versions |
| DriverChoice.SuffixedPick | macliteos/hardware/driver.c:697-736 | for every number a suffixed catalog whose choice is not the greatest |
| DriverChoice.PassedOverIsExplained | macliteos/hardware/driver.c:710-728 | ineligible releases, and only those, are reported broken or unmet; a chosen one is reported as testing exactly if it is |
| DriverChoice.CaveatIsOfTheChoice | macliteos/hardware/driver.c:729-735 | the caveat is the chosen release's last unconfirmed term if it has one; otherwise there is none exactly if no release that led before it has an unconfirmed term |
| DriverChoice.CaveatOfAnother | macliteos/hardware/driver.c:729-735 | an older release with a term nobody can check, a newer one without terms: the caveat beside the newer one is the older one's term |
| DriverChoice.PlanResolve | macliteos/hardware/driver.c:791-822 | each component with a release for the machine gets one decision, its pick, unless the plan is full |
| StoreWalk.WalkExactly | macliteos/hardware/driver.c:1266-1279 | the walk lists every directory that shows and opens with all above it, whatever the order of listing, exactly if each has room: what is left behind on the way to it never takes more than 64 places |
| StoreWalk.OnlyReachable | macliteos/hardware/driver.c:1270-1279 | nothing below a directory that is hidden or does not open is ever listed |
| StoreWalk.CrowdedDrops | macliteos/hardware/driver.c:1278 | a directory too high for the stack is dropped silently by some order of listing |
| Rollback.UndoneIffFaithful | macliteos/hardware/driver.c:1280-1310 | a record is rolled back to the original exactly if it says what the original was |
| Rollback.RolledBackExactly | macliteos/hardware/driver.c:1253-1316 | a successful rollback of any store has done to every live file what the records it came to say, and nothing to the others |
| Rollback.SucceedsExactly | macliteos/hardware/driver.c:1253-1316 | without write errors it succeeds exactly if there is a store and no file is in the way of a destination it handles |
| Rollback.RollbackTwice | macliteos/hardware/driver.c:1253-1316 | a second successful rollback that comes to no other records changes nothing |
| Rollback.SnapshotKeeps | macliteos/hardware/driver.c:1174-1201 | a snapshot, complete or failed, touches no live file, records its destination if it succeeds, and every record still says what the original was |
| Rollback.InstallFrame | macliteos/hardware/driver.c:1203-1251 | nothing without verification; otherwise only the package's destinations change, and no record is ever overwritten |
| Rollback.InstallDelivers | macliteos/hardware/driver.c:1226-1251 | after a successful installation every destination, early-load copies included, holds the bytes of the last file that writes it |
| Rollback.InstallSucceedsExactly | macliteos/hardware/driver.c:1226-1251 | without write errors, at any point of any run, an installation succeeds exactly if every file can be read and no original file is in the way |
| Rollback.RunKeeps | macliteos/hardware/driver.c:1174-1316 | over any installs and rollbacks, complete or failed, live files differ from the originals only where a record says what the original was |
| Rollback.RunRestoresExactly | macliteos/hardware/driver.c:1174-1316 | after any such run, a successful rollback restores everything exactly if every destination whose record it did not come to still held its original |
| Rollback.RunRestores | macliteos/hardware/driver.c:1174-1316 | so if every directory opens, is listed in full and has room |
| Rollback.RunSucceedsExactly | macliteos/hardware/driver.c:1174-1316 | and without write errors it succeeds exactly if something was recorded and no original file is in the way of a destination whose record it comes to |
| Rollback.Machine.SnapshotBefore | macliteos/hardware/driver.c:1174-1201 | in place, the snapshot takes the specified step |
| Rollback.Machine.InstallFile | macliteos/hardware/driver.c:1220-1230 | snapshot first, then the copy |
| Rollback.Machine.Install | macliteos/hardware/driver.c:1203-1251 | the loop over the files stops at the first failure; if it succeeds every destination, early-load copies included, holds the bytes of the last file that writes it |
| Rollback.Machine.WalkDir | macliteos/hardware/driver.c:1274-1311 | one directory: files are restored, subdirectories pushed while there is room |
| Rollback.Machine.Rollback | macliteos/hardware/driver.c:1253-1316 | the walk with its stack restores the specified directories in the specified order and skips silently those that do not open |
| Rollback.AnyRunThenRollback | macliteos/hardware/driver.c:1174-1316 | a run and a rollback in place end in the specified state, with the condition under which that is the first one |
| Destinations.LoneRollback | macliteos/hardware/driver.c:1174-1316 | for every file system, destination and answers, what one install and a successful rollback leave: a file below a directory that does not open, or hidden, stays; a name that reads as a marker deletes another file |
| Destinations.LoneUndoneExactly | macliteos/hardware/driver.c:1174-1316 | that install is undone exactly if the way to it opens and shows and, where its name reads as a marker, neither it nor the file it seems to mark was there |
| Destinations.NamesExactly | macliteos/hardware/driver.c:1174-1316 | for destinations none of which is a directory of another: every successful rollback of every run among them restores everything exactly if none is hidden or reads as a marker and none lies below the marker of another |
| PageFlip.Display.WriteRow | macliteos/hardware/kms.c:318-321 | a row is only ever written in a buffer neither on the screen nor queued |
| PageFlip.Display.CopySurface | macliteos/hardware/kms.c:318-321 | the whole surface is in the back buffer although the kernel runs between rows |
| PageFlip.Display.Submit | macliteos/hardware/kms.c:322-337 | the frame is handed over exactly if the request is granted at once, or is answered busy and granted at the one retry; an error is counted exactly if the first request failed |
| PageFlip.Display.Commit | macliteos/hardware/kms.c:286-338 | a frame is handed over whole or dropped; if no poll or read fails and the last completion is there in time a willing kernel gets it; with no flip pending, exactly if the request is granted |
| PageFlip.Display.Wait | macliteos/hardware/kms.c:342-376 | each completion read toggles the front buffer and counts once; one that is there when the wait polls is read unless a poll or read fails; done exactly if nothing is pending |
| PageFlip.Display.Read | macliteos/hardware/kms.c:351-374 | other events do not retire the flip, and nothing behind the completion is missed |
| PageFlip.AnyRun | macliteos/hardware/kms.c:276-376 | over every interleaving, call by call: what each commit and wait did; one flip outstanding, front is flips mod 2, the screen showed the accepted surfaces whole and in order; if nothing fails and each flip is finished in time every presented surface is handed over |
| Reassembly.SplitAppend | macliteos/installer/mica-installer.c:742-754 | splitting may be done in parts, the remainder put before the next part |
| Reassembly.AnyChunking | macliteos/installer/mica-installer.c:727-760 | without overlong lines the lines parsed are the newline split for every chunking; the channel closes exactly at a failing line |
| Reassembly.FaithfulForEveryChunking | macliteos/installer/mica-installer.c:727-760 | nothing is lost for any chunking exactly if no line is overlong |
| Reassembly.ShortLinesFit | macliteos/installer/mica-installer.c:733-740 | lines of at most 3072 bytes are never overlong and the flush stays in bounds |
| Reassembly.Reader.Append | macliteos/installer/mica-installer.c:733-740 | drop to the last 2048 bytes on overflow, then append |
| Reassembly.Reader.Extract | macliteos/installer/mica-installer.c:742-753 | hands over every terminated line and keeps the remainder, which has no newline |
| Reassembly.Reader.Drain | macliteos/installer/mica-installer.c:727-760 | the in-place loops go on from what earlier ticks received as the specification of the feed says |
| Reassembly.Reader.Ticks | macliteos/installer/mica-installer.c:808-825 | so over any number of ticks |
| Reassembly.Reader.Flush | macliteos/installer/mica-installer.c:770-775 | the rest is parsed once; a byte outside the buffer is written exactly if it is full |
| Reassembly.FillThenFlush | macliteos/installer/mica-installer.c:727-775 | after any four full reads without a newline the flush writes outside the buffer |
| InstallerGate.StepKeeps | macliteos/installer/mica-installer.c:1133-1345 | every event keeps the invariant; Complete only from a ready Summary, Summary only by exit status 0 |
| InstallerGate.TickKeeps | macliteos/installer/mica-installer.c:762-825 | a tick keeps it, with lines before and after the backend's end |
| InstallerGate.AnyRun | macliteos/installer/mica-installer.c:168-907 | in Complete and at Restart all ten checks are the last word of the latest run, which ended with status 0 at full progress; a backend is active exactly if there is a process |
| InstallerGate.SummaryReady | macliteos/installer/mica-installer.c:168-195 | in Summary the Complete button works exactly if all ten checks passed last |
| InstallerGate.FailureThenComplete | macliteos/installer/mica-installer.c:762-806 | for every running backend: a failure line after the end was reported, status 0 and full progress still complete |
| InstallerGate.SummaryForgives | macliteos/installer/mica-installer.c:762-806 | a tick that reaches Summary forgives a failure exactly if its line was read after the end had been reported |
| InstallerGate.ForgivenExactly | macliteos/installer/mica-installer.c:762-825 | over every run, in Summary and Complete no failure line was read before the end of the latest backend, and one after it exactly if the run is marked failed |
| InstallerGate.TrapExactly | macliteos/installer/mica-installer.c:675-706 | where every tick of a running backend leads: stuck exactly if a line failed and a later one moved the stage on, before the end was reported, or after it when the end does not pass |
| InstallerGate.TrapIsPermanent | macliteos/installer/mica-installer.c:1133-1345 | no event leaves that state |
| InstallerGate.ErasesAgreedDisk | macliteos/installer/mica-installer.c:827-840 | an installing run has consent, for that disk unless disks were probed since |
| InstallerGate.RowSelects | macliteos/installer/mica-installer.c:1172-1196 | a click on a row makes that disk the target; a live one is protected, one that is gone leads to a new probe |
| InstallerGate.PreselectedIsFirst | macliteos/installer/mica-installer.c:529-545 | the preselected disk is the first fixed one that is not live, without one the first that is not live |
| InstallerGate.TargetIsLastChosen | macliteos/installer/mica-installer.c:197-249 | over every run, on both selection screens the target is the row clicked last since the list was entered, before that the preselected disk |
| InstallerGate.ErasesLastChosen | macliteos/installer/mica-installer.c:827-907 | over every run, what is started from the confirmation screen erases that disk, which is present and not live |
| InstallerGate.TogglesExactly | macliteos/installer/mica-installer.c:1149-1152 | consent changes on the confirmation screen exactly by the box or the space key |
| InstallerGate.NavigatesExactly | macliteos/installer/mica-installer.c:197-249 | how the selection screens follow one another, exactly |
| InstallerGate.QuitsExactly | macliteos/installer/mica-installer.c:1142-1147 | the program quits exactly by the quit key outside a running installation or by the restart button |
| InstallerGate.RetryErasesAnother | macliteos/installer/mica-installer.c:837-840 | for any two disks, Retry after a failed revalidation erases the other one |
| InstallerGate.ConsentExactly | macliteos/installer/mica-installer.c:827-907 | a started run, Repair included, has consent for its disk exactly if the box is ticked and the disks were not probed since or the probe chose the same one |
| InstallerGate.RepairStartsUnconfirmed | macliteos/installer/mica-installer.c:827-840 | Repair starts on a preselected disk without consent |
| InstallerGate.TickStartsErase | macliteos/installer/mica-installer.c:1196-1206 | releasing the mouse after ticking the box starts the installation |
| InstallerGate.Installer.Handle | macliteos/installer/mica-installer.c:808-825 | the handlers, changing the globals in place, take exactly the specified step and keep the invariant |
| InstallerGate.Installer.ParseBackendLine | macliteos/installer/mica-installer.c:650-725 | one line does to the globals what the specification says |
| InstallerGate.ProgressIsGreatest | macliteos/installer/mica-installer.c:650-725 | the progress shown is the greatest amount reported since the start |
| InstallerGate.Installer.StartBackend | macliteos/installer/mica-installer.c:827-907 | a start resets every piece of evidence, or refuses |
| Terminal.FedAll | macliteos/applications/mica-terminal.c:128-159 | any bytes keep the cursor on the grid |
| Terminal.FaultExactly | macliteos/applications/mica-terminal.c:74-122 | the two cases in which an array is indexed past its end, and no others |
| Terminal.SemicolonsFault | macliteos/applications/mica-terminal.c:74-87 | a style sequence faults exactly from the eighth semicolon on |
| Terminal.LoneParameterIgnored | macliteos/applications/mica-terminal.c:152-156 | one parameter without a semicolon has no effect, except for style |
| Terminal.EraseLine | macliteos/applications/mica-terminal.c:116-121 | erasing in a line touches only that line and the right half |
| Terminal.EraseDisplay | macliteos/applications/mica-terminal.c:110-116 | erase display clears everything, or everything from the cursor on |
| Terminal.SequenceRuns | macliteos/applications/mica-terminal.c:146-156 | a control sequence of up to eight parameters runs its command with the numbers written, a lone one counting only for a style |
| Terminal.CursorAddressed | macliteos/applications/mica-terminal.c:106-109 | cursor addressing goes to the one-based row and column, cut to the grid, and changes nothing else |
| Terminal.CursorKeysMove | macliteos/applications/mica-terminal.c:102-105 | the cursor keys move by their count, at least by one, and stop at the edges |
| Terminal.StyleCodes | macliteos/applications/mica-terminal.c:74-87 | the codes of ECMA-48 section 8.3.117 for colours, bright colours, bold and defaults set one attribute each |
| Terminal.UnknownStyles | macliteos/applications/mica-terminal.c:74-87 | a code that is not known does nothing, so only the reset ends bold |
| Terminal.StylesCompose | macliteos/applications/mica-terminal.c:74-87 | two style sequences may be sent as one |
| Terminal.ControlsMove | macliteos/applications/mica-terminal.c:134-138 | carriage return, backspace, tab and line feed move the cursor as they should and change no cell unless a line feed scrolls |
| Terminal.ReverseIndex | macliteos/applications/mica-terminal.c:146-149 | the reverse index goes one line up and never scrolls |
| Terminal.PrintedCell | macliteos/applications/mica-terminal.c:89-96 | a printed character goes to the cursor in the current style and changes no other cell |
| Terminal.WrappedCell | macliteos/applications/mica-terminal.c:89-96 | with a wrap pending it goes where it would after a line feed |
| Terminal.EraseSpills | macliteos/applications/mica-terminal.c:116-121 | with a wrap pending, erasing to the start also clears the next line's first cell |
| Terminal.TextIsLaidOut | macliteos/applications/mica-terminal.c:49-96 | for printable text, scrolled rows and grid are the lazily wrapped layout, padded |
| Terminal.Term.ScrollUp | macliteos/applications/mica-terminal.c:54-64 | the flat grid moves up one row and the row goes to the ring |
| Terminal.Term.Feed | macliteos/applications/mica-terminal.c:128-159 | flat grid and ring refine the row-wise rules; the ring holds the last 512 rows in order |
| Terminal.ShowText | macliteos/applications/mica-terminal.c:128-159 | a fresh terminal fed a text shows the end of its layout |
| TextEdit.TypingInserts | macliteos/applications/mica-textedit.c:69-82 | typing inserts at the cursor of the joined text |
| TextEdit.EnterInserts | macliteos/applications/mica-textedit.c:91-105 | Enter inserts a newline exactly below column 4096, and what is lost otherwise |
| TextEdit.BackspaceInLine | macliteos/applications/mica-textedit.c:106-111 | inside a line Backspace deletes the previous character |
| TextEdit.BackspaceJoins | macliteos/applications/mica-textedit.c:112-120 | at a line's start it deletes the newline exactly if the previous line's length was kept |
| TextEdit.DeleteThenJoinLoses | macliteos/applications/mica-textedit.c:106-120 | for any two lines, type, delete and join loses the second |
| TextEdit.InsertThenBackspace | macliteos/applications/mica-textedit.c:69-120 | insert and Backspace is the identity on text and cursor |
| TextEdit.EnterThenBackspace | macliteos/applications/mica-textedit.c:91-120 | so is Enter and Backspace below column 4096 |
| TextEdit.KeysEdit | macliteos/applications/mica-textedit.c:83-134 | which key does what to the text and the offset: insert, newline, delete, join, or nothing |
| TextEdit.ArrowsMove | macliteos/applications/mica-textedit.c:122-125 | the arrow keys move one place inside the line, or one line at the same column as far as that reaches, and stop at the edges |
| TextEdit.LoadAfterSave | macliteos/applications/mica-textedit.c:19-46 | loading what was saved gives the same lines |
| TextEdit.SaveAfterLoad | macliteos/applications/mica-textedit.c:19-46 | saving what was loaded gives the same file exactly if it has no zero byte, ends with a newline and fits |
| TextEdit.Editor.Input | macliteos/applications/mica-textedit.c:83-134 | a key changes the line array as specified and keeps it usable |
| TextEdit.Editor.Load | macliteos/applications/mica-textedit.c:19-37 | the parsing loop fills the array with the file's lines |
| TextEdit.Editor.EnterKey | macliteos/applications/mica-textedit.c:91-105 | the lines below shift down in place |
| TextEdit.Editor.BackspaceKey | macliteos/applications/mica-textedit.c:106-121 | the lines below shift up in place |
| Png.RestoreFiltered | macliteos/scripts/preview.py:14-28 | restoring undoes each of the five filters of the specification |
| Png.FilterRestored | macliteos/scripts/preview.py:14-28 | and filtering undoes restoring |
| Png.PaethIsNearest | macliteos/scripts/preview.py:22-27 | the Paeth choice is the nearest of three neighbours, the earlier on a tie |
| Png.FilteredZero | macliteos/scripts/preview.py:14-28 | what each filter type predicts: the byte before, the byte above, their mean rounded down, or the nearest neighbour |
| Png.RestoreRow | macliteos/scripts/preview.py:14-28 | the in-place loops restore the row |
| Png.DecodeEncoded | macliteos/scripts/preview.py:11-29 | whole images decode whatever type each row uses |
| Png.EncodeDecoded | macliteos/scripts/preview.py:11-29 | and encode back to the stream |
| Png.Unfilter | macliteos/scripts/preview.py:11-29 | the row loop gives the decoded rows one after the other |
| Png.WalkFramed | macliteos/scripts/preview.py:6-10 | the chunk walk over framed chunks sees exactly those chunks up to the end chunk |
| Png.ReadPng | macliteos/scripts/preview.py:4-29 | the loops compute the specified reading, failing where the script raises |
| Png.BuildData | macliteos/scripts/preview.py:34-42 | the writer's loop gives the specified stream, a zero type byte before each row |
| Png.ReadWritten | macliteos/scripts/preview.py:34-46 | what the script wrote it reads back, given that zlib round-trips |
| Png.ReadConforming | macliteos/scripts/preview.py:4-29 | every 8-bit colour image with or without alpha is read, whatever other chunks it has, however its data is split and its rows filtered |
| Png.WrittenStarts | macliteos/scripts/preview.py:42-45 | the header of the written file, byte for byte |
| Png.BigEndian | macliteos/scripts/preview.py:42-43 | lengths and sizes are written most significant byte first |
| Edid.FieldsEncoded | macliteos/hardware/edid.c:7-24 | encoding a timing as in section 3.10.2 of the E-EDID standard and parsing it is the identity |
| Edid.EncodesFields | macliteos/hardware/edid.c:7-24 | and parsing then encoding gives the timing bytes back |
| Edid.PreferredIsFirstDetailed | macliteos/hardware/edid.c:37-43 | the preferred mode is unique, sits behind the established ones, and exists exactly if a descriptor is usable |
| Edid.FirstDetailed | macliteos/hardware/edid.c:37-43 | it is the first usable descriptor's timing |
| Edid.EstablishedExactly | macliteos/hardware/edid.c:93-99 | an established mode is listed exactly if its bit of section 3.8 of the E-EDID standard is set, and no other |
| Edid.RefreshIsRate | macliteos/hardware/edid.c:32-36 | a timing is read with the refresh rate its pixel clock stands for, rounded down |
| Edid.ScoreOrders | macliteos/hardware/edid.c:137-143 | more pixels score higher unless the refresh rate outweighs them, equally many by the rate |
| Edid.OneByteRejected | macliteos/hardware/edid.c:66-75 | any one-byte change of an accepted block is rejected |
| Edid.Info.Parse | macliteos/hardware/edid.c:66-107 | the ten-entry table holds every established and detailed mode in order, none dropped |
| Edid.Info.ParseDescriptor | macliteos/hardware/edid.c:7-44 | a usable descriptor is appended, preferred exactly if none was |
| Edid.Info.BestMode | macliteos/hardware/edid.c:127-146 | the fitting preferred mode, else the first fitting one of the greatest score; none exactly if every fitting score is negative |
| Edid.ScoreNonNegative | macliteos/hardware/edid.c:31-36 | which it is not from 306 pixels per frame on |
| Brightness.RoundTripsIff | macliteos/hardware/backlight.c:164-181 | every percentage is read back exactly if the device has at least 100 steps |
| Brightness.PercentNearest | macliteos/hardware/backlight.c:164-170 | every raw value is read as the nearest percentage |
| Brightness.RawNearest | macliteos/hardware/backlight.c:171-181 | every percentage is set as the nearest raw value, or 1 where that would switch the panel off |
| Brightness.RawMonotone | macliteos/hardware/backlight.c:171-181 | raw values never fall as percentages rise |
| Brightness.NeverOffIff | macliteos/hardware/backlight.c:171-181 | no percentage above 0 is off exactly with at least 8 steps |
| Brightness.StepUpRaisesIff | macliteos/hardware/backlight.c:270-275 | a step up below full raises the raw value exactly with at least 5 steps |
| Brightness.StepsReachIff | macliteos/hardware/backlight.c:270-275 | n steps from p reach min(100, p + 10 n) for all p and n exactly with at least 100 steps |
| Brightness.Device.WriteAndVerify | macliteos/hardware/backlight.c:191-229 | done exactly if the value read back is the one asked for; what is stored otherwise |
| Brightness.Device.SetPercent | macliteos/hardware/backlight.c:231-258 | suspect devices and test trees are never written |
| Brightness.Device.Step | macliteos/hardware/backlight.c:270-275 | a verified step sets the specified raw value |
| Brightness.Device.StepsUp | macliteos/hardware/backlight.c:270-275 | a run of verified steps reaches min(100, p + 10 n) |
| StageMatch.MissingOrderedStages | macliteos/scripts/qemu-boot-test.py:92-101 | the loop's list is empty exactly if the stages occur in order without overlap |
| StageMatch.CompleteMatch | macliteos/scripts/qemu-boot-test.py:92-101 | greedy matching is complete |
| StageMatch.ExtensionKeeps | macliteos/scripts/qemu-boot-test.py:92-101 | a longer log never unsatisfies a satisfied list |
| StageMatch.ExtensionCanHide | macliteos/scripts/qemu-boot-test.py:92-101 | an unsatisfied list can grow with the log |
| StageMatch.ExtensionKeepsExactly | macliteos/scripts/qemu-boot-test.py:92-101 | every longer log keeps every stage that was found, and reports no stage missing more often, exactly if none with a text was found behind a missing one |

## Left out

- Drawing itself (blending, fonts, shadows, scaling, the wallpaper's contents) is a set of functions per pixel; what they compute is not modelled.
- The workspace slide: no code starts it, so its offset is always 0.
- Animations: the values they report are arguments of the animation tick; springs and curves are not modelled.
- The WS_FOCUSED bits: the obvious claim, at most one, is false and nothing depends on it.
- Client sockets, input devices, configuration events, child processes, the launcher and the log.
- Compositor.Compositor.ReleaseWin: does not promise the title bar of the window that comes to the front, because the code does not damage it (`Damage.RemovalExactly`); it counts as stale until it is repainted.
- Compositor.Compositor.NewWindow: the same for the title bar of the former front window (`Damage.ArrivalExactly`), and for windows that a bottom window drops from the list.
- Compositor.Compositor.Commit: the pixels a client changes without reporting them are stale in the same way.
- Session.Handle: nothing is promised at pixels a visible window scales across or spills over, where damage-only painting depends on the clip; after an event with more than 64 windows, of which no repaint shows all, or with a window smaller than its decoration or scaled beyond its size, which no easing curve does, the whole screen counts as stale until it is repainted; the pointer sprite is narrow enough for the coverage test.
- Compositor.Compositor.RepaintDamage: the rectangle of a scaled blit is computed in exact arithmetic, not in doubles.
- Rollback: an empty install root, which makes the store path relative to the working directory, and paths cut to a fixed length.
- Rollback: empty directories and destinations inside the store are not represented; modes and owners are not either.
- Rollback.RunKeeps: records say what the original was only if snapshot and marker writes are all-or-nothing; a half-written snapshot counts as valid on a retry.
- Rollback.Machine.Rollback: a store that changes during the walk.
- DriverChoice: the text of notes and their truncation; matching a target expression against the hardware; the parsing of requirement strings, which enter as terms.
- Digests, signatures and the catalog parser.
- PageFlip: opening the device and choosing a mode, a read that blocks for ever, and malformed event records.
- Reassembly: zero bytes inside a line, at which the parser stops reading it.
- InstallerGate: the text of messages, which enter already classified, pixel positions of buttons, the probing of disks, and the process left running when a failure drops its identifier.
- Terminal: resizing, redraw flags, the pseudo-terminal, and overflow of a parameter's digits.
- TextEdit: scrolling, the modified mark, the file system, and reloading into a used array, which the program never does.
- Png: the downscaling and alpha step of the script, checksums (the reader skips them) and zlib, of which only the round trip is used; streams too short for their header, for which the script raises or returns fewer bytes, read as failures.
- Edid: monitor name, serial number, manufacturer and size fields.
- Brightness: rounding of double arithmetic, since the model computes exactly, and the choice among several devices.
- Integers are unbounded except where a width is part of a statement.
