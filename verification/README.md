# Scroll, navigation and widget rules of the corporate website

A Dafny model of the small pure rules that sit inside four React
components of the site. The markup is not modelled; each rule is a pure
function over `real` (for JavaScript numbers) and `string`, with lemmas
stating what the rule guarantees.

- **Card deck** (`CardScroll`, over `Keyframes`): the specialist cards of
  the Clinicans page. Scroll progress in [0, 1] is split into one equal
  slot per card. Each slot has a 15% entry zone, a 70% still hold and a 15%
  exit zone. Opacity, scale, vertical offset and blur are keyframed over
  `[start, entrance, exit, end]`. A card stays in the layout on a band 0.05
  wider than its slot on each side. The animation library's `useTransform`
  is modelled as clamped piecewise-linear interpolation (`Keyframes`).
  That is an assumption about the library, whose code is not part of this
  model.
- **Header** (`Header`): a state of two values, `mobileOpen` and
  `activeDropdown`. It changes on section toggles, on the desktop close,
  on opening and closing the drawer, and on route changes. From it follow
  the drawer and panel rendering, the body scroll lock (the effect keyed on
  `mobileOpen` and its cleanup), and the pathname tests that highlight
  nav links.
- **Video terminal** (`VideoTerminal`): the `#t=0.001` rewrite of the video
  URL, the schema script id (whitespace runs of the title become `-`), the
  VideoObject record, and the play/pause state with its overlay and
  native controls.
- **Bento grid** (`Features`): the flip cells' cyclic icon step, the icon
  column of each of the 8 cells, and the cursor-following tilt.

Notes on the code's behaviour:
- The code renders no card when the card list is empty. The model
  requires `index < total`, which every rendered card satisfies.
- The hold is a proper interval: `entrance < exit` for every card.
- The section is `total * 100` vh tall, but the scroll progress runs over
  the section height less one viewport height. Each card
  therefore gets `(total - 1) * 100 / total` vh of scrolling (80 vh for
  five cards, 56 vh of it the hold), and a lone card gets none
  (`CardScroll.CardScrollDistance`).
- Toggling a section twice is the identity only when that section or no
  section was expanded. When another section was expanded, the first
  toggle replaces it and the second collapses everything (`Header.ToggleTwice`).
- The drawer's external Clinicans link is highlighted by the same
  `startsWith('/news')` test as the News link. So it lights up on news pages
  and not on `/clinicans`. This is modelled as written.
- The News test is a plain prefix test, so `/newsletter` matches too.

## Model

| member | source | states |
|---|---|---|
| Keyframes.Interpolate | components/clinicans/ClinicansCardScroll.tsx:34-56 | below the first keyframe the first value holds, above the last keyframe the last value holds (clamping) |
| Keyframes.InterpolateOnSegment | components/clinicans/ClinicansCardScroll.tsx:34-56 | between keyframes i and i+1 the value is the straight line through those two keyframes |
| Keyframes.InterpolateBounded | components/clinicans/ClinicansCardScroll.tsx:34-56 | no overshoot: if every keyframe value is in [lo, hi], every interpolated value is too |
| Keyframes.InterpolateAtKnot | components/clinicans/ClinicansCardScroll.tsx:34-56 | each keyframe position yields exactly its keyframe value |
| Keyframes.InterpolateFlat | components/clinicans/ClinicansCardScroll.tsx:34-56 | two equal neighbouring values hold the output constant over their whole segment |
| CardScroll.CardPhase | components/clinicans/ClinicansCardScroll.tsx:21-32 | start < entrance < exit < end inside [0, 1]; the slot is 1/total wide; entry and exit zones are 15% each and the hold is 70% of the slot |
| CardScroll.Keys | components/clinicans/ClinicansCardScroll.tsx:34-56 | the keyframe positions [start, entrance, exit, end] are strictly increasing |
| CardScroll.Animate | components/clinicans/ClinicansCardScroll.tsx:34-56 | definition of one `useTransform(progress, [start, entrance, exit, end], values)` call; characterised by CardScroll.PeakOnlyInHold and CardScroll.SlotEdges |
| CardScroll.Style | components/clinicans/ClinicansCardScroll.tsx:34-73 | at any progress opacity is in [0, 1], scale in [0.9, 1.1], y in [-30, 30] px, blur radius in (0, 10] when blurred, and zIndex is the card index |
| CardScroll.SlotsTile | components/clinicans/ClinicansCardScroll.tsx:21-23 | slot 0 starts at 0, the last slot ends at 1, and each slot ends where the next starts |
| CardScroll.SlotsCover | components/clinicans/ClinicansCardScroll.tsx:21-23 | every progress value in [0, 1] lies in some card's slot |
| CardScroll.HoldsDisjoint | components/clinicans/ClinicansCardScroll.tsx:30-32 | for i < j the hold of card i ends strictly before the hold of card j begins |
| CardScroll.CardScrollDistance | components/clinicans/ClinicansCardScroll.tsx:154-166 | each slot is 100 vh of the section height (70 vh hold), but progress 0 to 1 scrolls the height less one viewport height, so a card gets 100 - 100/total vh of scrolling (70% of it the hold): none for a lone card, between 50 and 100 vh otherwise |
| CardScroll.HoldIsStill | components/clinicans/ClinicansCardScroll.tsx:25-62 | anywhere in [entrance, exit] the card has opacity 1, scale 1, y 0, no filter and display "flex" |
| CardScroll.PeakOnlyInHold | components/clinicans/ClinicansCardScroll.tsx:34-56 | a property keyframed [a, b, b, c] with a != b != c equals b exactly when the progress is in the hold |
| CardScroll.OpaqueExactlyInHold | components/clinicans/ClinicansCardScroll.tsx:34-58 | opacity is 1, and the filter is "none", if and only if the progress is in [entrance, exit] |
| CardScroll.AtMostOneCardHeld | components/clinicans/ClinicansCardScroll.tsx:30-38 | at any progress at most one card of the deck is fully opaque |
| CardScroll.SlotEdges | components/clinicans/ClinicansCardScroll.tsx:34-56 | at start a card has opacity 0, scale 0.9, y 30, blur 10; at end opacity 0, scale 1.1, y -30, blur 10 |
| CardScroll.DeckEnds | components/clinicans/ClinicansCardScroll.tsx:21-44 | at progress 0 the first card has opacity 0 and scale 0.9; at progress 1 the last card has opacity 0 and scale 1.1 |
| CardScroll.TransparentOutsideSlot | components/clinicans/ClinicansCardScroll.tsx:34-56 | outside its slot a card has opacity 0 and blur 10 |
| CardScroll.VisibleCardIsDisplayed | components/clinicans/ClinicansCardScroll.tsx:60-62 | the display band contains the whole slot, so a card with positive opacity is displayed and a card with display "none" is transparent |
| CardScroll.FilterTextMatchesBlur | components/clinicans/ClinicansCardScroll.tsx:58 | the filter text is "none" if and only if the blur is 0, otherwise "blur(<v>px)" |
| CardScroll.FiveCardScenario | components/clinicans/ClinicansCardScroll.tsx:191-198 | with 5 cards at progress 0.1 card 0 has opacity 1 and scale 1 and cards 1 to 4 have display "none" |
| CardScroll.FilterOf | components/clinicans/ClinicansCardScroll.tsx:58 | definition of the blur-to-filter ternary; characterised by CardScroll.FilterTextMatchesBlur and CardScroll.OpaqueExactlyInHold |
| CardScroll.FilterCss | components/clinicans/ClinicansCardScroll.tsx:58 | definition of the filter text; characterised by CardScroll.FilterTextMatchesBlur |
| CardScroll.DisplayOf | components/clinicans/ClinicansCardScroll.tsx:60-62 | definition of the display band; characterised by CardScroll.VisibleCardIsDisplayed |
| CardScroll.SectionHeightVh | components/clinicans/ClinicansCardScroll.tsx:166 | definition of the section height; characterised by CardScroll.CardScrollDistance |
| CardScroll.ScrollDistanceVh | components/clinicans/ClinicansCardScroll.tsx:154-166 | definition of the scroll distance (section height less one viewport height); characterised by CardScroll.CardScrollDistance |
| CardScroll.ProgressBarPercent | components/clinicans/ClinicansCardScroll.tsx:207 | definition of the progress-bar height; characterised by CardScroll.ProgressBarMirrorsProgress |
| CardScroll.ProgressBarMirrorsProgress | components/clinicans/ClinicansCardScroll.tsx:207 | the progress bar is 100*p percent on [0, 1], 0 below and 100 above |
| Header.DrawerRendered | components/layout/Header.tsx:372 | definition of `mobileOpen && (…)`; characterised by Header.ToggleEffect and Header.LockedIffDrawer |
| Header.PanelRendered | components/layout/Header.tsx:193 | definition of `open && (…)` with `open` computed as `activeDropdown === id` (:319, :465); characterised by Header.ToggleEffect |
| Header.BodyOverflow | components/layout/Header.tsx:254-260 | definition of the effect's if/else value; characterised by Header.LockedIffDrawer |
| Header.Toggle | components/layout/Header.tsx:320-324 | after a toggle of id the section id is open if and only if it was not open before, and nothing is open if and only if id was open |
| Header.Step | components/layout/Header.tsx:244-483 | every event other than a route change alters only one of mobileOpen and activeDropdown, and UI events keep the expanded section a real one |
| Header.ToggleTwice | components/layout/Header.tsx:466-470 | toggling id twice restores the state exactly when id or nothing was open; otherwise it ends with every section collapsed |
| Header.ToggleEffect | components/layout/Header.tsx:319-324 | a toggle keeps the drawer, opens a closed section, closes the open one, and leaves no other panel rendered (switching straight from A to B) |
| Header.DesktopCloseKeepsDrawer | components/layout/Header.tsx:325 | the desktop close sets activeDropdown to null and leaves mobileOpen unchanged |
| Header.DrawerEventsKeepSection | components/layout/Header.tsx:466-471 | the mobile close (and every drawer close or open) sets mobileOpen and leaves activeDropdown unchanged |
| Header.RouteChangeResets | components/layout/Header.tsx:244-249 | after any history ending in a route change the drawer is closed, no panel is rendered and the body is unlocked |
| Header.UiRunsStayValid | components/layout/Header.tsx:315-327 | under any sequence of UI events the expanded section stays a real nav section; that at most one panel is shown holds of every state by construction and is restated for the final state |
| Header.SyncBody | components/layout/Header.tsx:252-265 | definition of the effect keyed on mobileOpen with its cleanup; characterised by Header.BodyStaysInSync |
| Header.RunBody | components/layout/Header.tsx:252-265 | definition of the body overflow over an event sequence; characterised by Header.BodyStaysInSync and Header.MountedBodyMatchesDrawer |
| Header.LockedIffDrawer | components/layout/Header.tsx:251-265 | body overflow is "hidden" if and only if the drawer is rendered, and "" otherwise |
| Header.BodyStaysInSync | components/layout/Header.tsx:252-265 | with the effect re-run only on mobileOpen changes (cleanup writes ""), the body overflow matches the drawer state after any event sequence |
| Header.MountedBodyMatchesDrawer | components/layout/Header.tsx:252-265 | from mount, the body is locked after any event sequence exactly when the drawer is rendered |
| Header.HomeLinkActive | components/layout/Header.tsx:306 | definition of the Home test (also :411); characterised by Header.HomeAndNewsExclusive |
| Header.NewsLinkActive | components/layout/Header.tsx:333 | definition of the News prefix test (also :425); characterised by Header.NewsLinkIsNewsPlusAnything |
| Header.ClinicansLinkActive | components/layout/Header.tsx:443 | definition of the drawer Clinicans test; characterised by Header.ClinicansLinkFollowsNews |
| Header.NewsLinkIsNewsPlusAnything | components/layout/Header.tsx:333 | News (and the drawer Clinicans link) is highlighted exactly when the pathname is "/news" followed by any text |
| Header.HomeAndNewsExclusive | components/layout/Header.tsx:302-340 | the Home link (pathname "/") and the News link (prefix "/news") are never highlighted together |
| Header.NewsMatchingIsPrefix | components/layout/Header.tsx:333 | News is highlighted on "/news", "/news/launch" and "/newsletter" but not on "/about/news" or "/" |
| Header.ClinicansLinkFollowsNews | components/layout/Header.tsx:439-446 | the drawer's Clinicans link is highlighted exactly when News is, and not on "/clinicans" |
| VideoTerminal.VideoSrc | components/cng/IndustrialVideoTerminal.tsx:48-52 | the player URL always contains '#' and has src as a prefix |
| VideoTerminal.VideoSrcCases | components/cng/IndustrialVideoTerminal.tsx:49-52 | the URL is unchanged exactly when src contains '#'; otherwise it is src followed by "#t=0.001" |
| VideoTerminal.VideoSrcIdempotent | components/cng/IndustrialVideoTerminal.tsx:49-52 | rewriting an already rewritten URL changes nothing |
| VideoTerminal.IsWhitespace | components/cng/IndustrialVideoTerminal.tsx:71 | definition of the regular expression class `\s`: the ECMAScript WhiteSpace and LineTerminator code points; used by VideoTerminal.CollapseWhitespace |
| VideoTerminal.CollapseWhitespace | components/cng/IndustrialVideoTerminal.tsx:71 | the result of replacing whitespace runs contains no whitespace |
| VideoTerminal.SchemaId | components/cng/IndustrialVideoTerminal.tsx:71 | the id starts with "video-schema-" and the rest contains no whitespace |
| VideoTerminal.CollapseKeepsWord | components/cng/IndustrialVideoTerminal.tsx:71 | a title without whitespace is used verbatim |
| VideoTerminal.CollapseIdempotent | components/cng/IndustrialVideoTerminal.tsx:71 | collapsing an already collapsed title changes nothing |
| VideoTerminal.CollapseWordThenRest | components/cng/IndustrialVideoTerminal.tsx:71 | a leading whitespace-free word passes through unchanged |
| VideoTerminal.CollapseRunThenRest | components/cng/IndustrialVideoTerminal.tsx:71 | a leading maximal whitespace run of any length becomes exactly one '-' |
| VideoTerminal.CollapseKeepsLetters | components/cng/IndustrialVideoTerminal.tsx:71 | every character that is neither whitespace nor '-' is kept, in order |
| VideoTerminal.SchemaIdOfTwoWords | components/cng/IndustrialVideoTerminal.tsx:71 | two words separated by any whitespace run give "video-schema-<first>-<second>" |
| VideoTerminal.Schema | components/cng/IndustrialVideoTerminal.tsx:54-65 | contentUrl and embedUrl are the raw src, duration defaults to "PT2M", name is the title and the thumbnail list is the poster |
| VideoTerminal.SchemaUsesRawSrc | components/cng/IndustrialVideoTerminal.tsx:49-64 | when src has no '#', the schema URL differs from the player URL and carries no fragment |
| VideoTerminal.TogglePlay | components/cng/IndustrialVideoTerminal.tsx:33-46 | definition of togglePlay; characterised by VideoTerminal.ToggleEffect and VideoTerminal.EchoConfirmsToggle |
| VideoTerminal.OnPlay | components/cng/IndustrialVideoTerminal.tsx:132 | definition of the onPlay handler; characterised by VideoTerminal.NativeEventsDriveSurface |
| VideoTerminal.OnPause | components/cng/IndustrialVideoTerminal.tsx:133 | definition of the onPause handler; characterised by VideoTerminal.NativeEventsDriveSurface |
| VideoTerminal.ControlsShown | components/cng/IndustrialVideoTerminal.tsx:131 | definition of `controls={ isPlaying }`; characterised by VideoTerminal.ExactlyOneSurface |
| VideoTerminal.OverlayShown | components/cng/IndustrialVideoTerminal.tsx:137 | definition of `!isPlaying && (…)`; characterised by VideoTerminal.ExactlyOneSurface |
| VideoTerminal.ExactlyOneSurface | components/cng/IndustrialVideoTerminal.tsx:131-137 | exactly one of native controls and play overlay is shown |
| VideoTerminal.ToggleEffect | components/cng/IndustrialVideoTerminal.tsx:33-46 | with a mounted video a toggle flips isPlaying and issues pause when playing, play otherwise; without one it does nothing; two toggles restore the state |
| VideoTerminal.EchoConfirmsToggle | components/cng/IndustrialVideoTerminal.tsx:33-46 | the play/pause event answering the toggle's command leaves the toggled state unchanged |
| VideoTerminal.NativeEventsDriveSurface | components/cng/IndustrialVideoTerminal.tsx:131-137 | after onPlay the controls show and the overlay hides; after onPause the reverse |
| Features.FlipStep | components/home/Features.tsx:236 | the next index stays in [0, len): it advances by one and wraps from the last icon to the first |
| Features.Ticks | components/home/Features.tsx:228-244 | the index after any number of ticks stays in [0, len) |
| Features.TicksWithinCycle | components/home/Features.tsx:236 | within one cycle the index is start + k, wrapped once past the last icon |
| Features.FlipCycle | components/home/Features.tsx:236 | after len ticks the index is back at its start, the sequence is periodic with period len, and no icon repeats within a cycle |
| Features.EveryIconShown | components/home/Features.tsx:236 | every icon of the column comes up within one cycle |
| Features.IconColumn | components/home/Features.tsx:299-302 | the column index i % 4 is a valid column |
| Features.CellIcon | components/home/Features.tsx:228-244 | the icon shown by a cell after any number of ticks is an icon of its own column (the index is always in range) |
| Features.RowsShareColumns | components/home/Features.tsx:298-302 | cells i and i+4 of the 8-cell grid use the same column, namely column i |
| Features.CellPeriods | components/home/Features.tsx:213-218 | cells 2 and 6 cycle through 3 icons and every other cell through 4 |
| Features.Tilt | components/home/Features.tsx:61-66 | definition of the tilt angles; characterised by Features.TiltBounded, Features.TiltZeroAtCentre, Features.TiltMonotone and Features.TiltRecoversCursor |
| Features.MouseMove | components/home/Features.tsx:57-70 | definition of handleMouseMove; characterised by Features.MouseHandlers |
| Features.MouseLeave | components/home/Features.tsx:78 | definition of onMouseLeave; characterised by Features.MouseHandlers |
| Features.TransformCss | components/home/Features.tsx:68-70 | definition of the transform text; characterised by Features.MouseHandlers |
| Features.TiltBounded | components/home/Features.tsx:57-66 | with the cursor over the element both tilt angles lie in [-2.5, 2.5] degrees |
| Features.TiltZeroAtCentre | components/home/Features.tsx:62-66 | with the cursor at the centre both angles are 0 |
| Features.TiltMonotone | components/home/Features.tsx:65-66 | rotateX increases with the cursor's y, and rotateY decreases with its x |
| Features.TiltRecoversCursor | components/home/Features.tsx:62-66 | the cursor position can be recovered from the two angles, so the map is injective |
| Features.MouseHandlers | components/home/Features.tsx:57-79 | a mouse move with no element keeps the transform; mouse leave clears it to ""; only the cleared transform has an empty style |

## Left out

- Markup, Tailwind classes, icons and `cn`/`twMerge`: presentation only.
- The animation library's internals: how `useScroll` derives progress, spring smoothing on the pages, and `whileInView` reveals. Only the assumed clamped piecewise-linear meaning of `useTransform` is modelled.
- Keyframes.Interpolate: zero-width keyframe segments are not modelled. The model requires strictly increasing positions, which every keyframe array in the deck has (proved by `CardScroll.Keys`).
- Viewport units: the section is sized in `vh`, and `useScroll` subtracts the height of the scrolling viewport. The model takes that viewport to be exactly 100 vh. On mobile browsers with collapsing toolbars the visible viewport (about `svh`) can be shorter than `vh`, and the scroll distance then grows by the difference.
- The pinned GSAP timeline of the story section: its meaning rests on the timeline library's position, scrub and pin rules, which are not part of this model.
- Timers and randomness: the 3500 ms flip interval and the random start delays (modelled as a count of ticks), and the randomly placed background stars.
- DOM measurement and media playback: `getBoundingClientRect` becomes a `Rect` parameter; `play()`/`pause()` become a `Command` value. That the browser answers a command with the matching play/pause event is an assumption.
- Features.Tilt: a zero-width or zero-height element is excluded by a requirement, because JavaScript then divides by zero and produces Infinity or NaN angles, which `real` cannot represent.
- IEEE-754 rounding: `1/total` and `0.15` are exact reals. JavaScript's number-to-string conversion (inside `blur(...)` and the transform text) is a parameter `fmt`.
- `JSON.stringify` of the schema, `Intl` date formatting, page compositions and layouts, and news data.
- The cursor glow of `GlowCard` (components/home/Features.tsx:96-138): it only copies cursor coordinates into a style.
- Header navigation: following a link is modelled only through its close handler plus a separate route-change event; the link targets themselves are not modelled.
