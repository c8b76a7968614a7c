/** The video player of the CNG page (components/cng/IndustrialVideoTerminal.tsx):
    the rewrite of the video URL so that the first frame renders, the id of
    the injected VideoObject schema script, the schema record itself, and
    the play/pause state with the overlay and native controls it shows. */
module VideoTerminal {
  import opened Wrappers

  // ---------------------------------------------------------------------
  // The video URL
  // ---------------------------------------------------------------------

  /** Media fragment appended to a URL without one, asking the browser to
      seek to 1 ms and so paint the first frame. */
  const FirstFrameFragment: string := "#t=0.001"

  /** The `src` given to the <video> element. */
  function VideoSrc(src: string): (r: string)
    ensures '#' in r
    ensures src <= r
  {
    if '#' in src then src else src + FirstFrameFragment
  }

  /** A URL that already has a fragment is left alone; any other URL gets
      exactly the first-frame fragment appended. */
  lemma VideoSrcCases(src: string)
    ensures '#' in src <==> VideoSrc(src) == src
    ensures '#' !in src ==> VideoSrc(src) == src + FirstFrameFragment
  {
    if '#' !in src {
      assert VideoSrc(src)[|src|] == '#';
    }
  }

  /** Rewriting an already rewritten URL changes nothing. */
  lemma VideoSrcIdempotent(src: string)
    ensures VideoSrc(VideoSrc(src)) == VideoSrc(src)
  {
  }

  // ---------------------------------------------------------------------
  // The schema script id
  // ---------------------------------------------------------------------

  /** The characters JavaScript's regular-expression class `\s` matches:
      the ECMAScript WhiteSpace and LineTerminator code points. */
  predicate IsWhitespace(c: char) {
    var n := c as int;
    n == 0x09 || n == 0x0A || n == 0x0B || n == 0x0C || n == 0x0D || n == 0x20
    || n == 0xA0 || n == 0x1680 || (0x2000 <= n <= 0x200A)
    || n == 0x2028 || n == 0x2029 || n == 0x202F || n == 0x205F
    || n == 0x3000 || n == 0xFEFF
  }

  predicate NoWhitespace(s: string) {
    forall i :: 0 <= i < |s| ==> !IsWhitespace(s[i])
  }

  predicate AllWhitespace(s: string) {
    forall i :: 0 <= i < |s| ==> IsWhitespace(s[i])
  }

  /** `s` without its leading whitespace run. */
  function SkipWhitespace(s: string): (r: string)
    ensures |r| <= |s| && r == s[|s| - |r|..]
    ensures AllWhitespace(s[..|s| - |r|])
    ensures r == [] || !IsWhitespace(r[0])
    decreases |s|
  {
    if s != [] && IsWhitespace(s[0]) then SkipWhitespace(s[1..]) else s
  }

  /** `title.replace(/\s+/g, "-")`: every maximal run of whitespace becomes
      a single '-'. */
  function CollapseWhitespace(s: string): (r: string)
    ensures NoWhitespace(r)
    decreases |s|
  {
    if s == [] then []
    else if IsWhitespace(s[0]) then "-" + CollapseWhitespace(SkipWhitespace(s))
    else [s[0]] + CollapseWhitespace(s[1..])
  }

  /** The id of the schema script tag. */
  function SchemaId(title: string): (id: string)
    ensures "video-schema-" <= id
    ensures NoWhitespace(id[|"video-schema-"|..])
  {
    "video-schema-" + CollapseWhitespace(title)
  }

  /** A title with no whitespace is used verbatim. */
  lemma {:induction false} CollapseKeepsWord(s: string)
    requires NoWhitespace(s)
    ensures CollapseWhitespace(s) == s
    decreases |s|
  {
    if s != [] {
      CollapseKeepsWord(s[1..]);
    }
  }

  /** Collapsing is idempotent: its output has nothing left to collapse. */
  lemma CollapseIdempotent(s: string)
    ensures CollapseWhitespace(CollapseWhitespace(s)) == CollapseWhitespace(s)
  {
    CollapseKeepsWord(CollapseWhitespace(s));
  }

  /** A leading word passes through unchanged. */
  lemma {:induction false} CollapseWordThenRest(w: string, s: string)
    requires NoWhitespace(w)
    ensures CollapseWhitespace(w + s) == w + CollapseWhitespace(s)
    decreases |w|
  {
    if w == [] {
      assert w + s == s;
    } else {
      assert (w + s)[0] == w[0] && !IsWhitespace(w[0]);
      assert (w + s)[1..] == w[1..] + s;
      CollapseWordThenRest(w[1..], s);
      assert w == [w[0]] + w[1..];
    }
  }

  /** A leading whitespace run, however long and of whatever characters,
      becomes exactly one '-'. */
  lemma CollapseRunThenRest(run: string, s: string)
    requires run != [] && AllWhitespace(run)
    requires s == [] || !IsWhitespace(s[0])
    ensures CollapseWhitespace(run + s) == "-" + CollapseWhitespace(s)
  {
    assert (run + s)[0] == run[0];
    SkipRun(run, s);
  }

  lemma {:induction false} SkipRun(run: string, s: string)
    requires AllWhitespace(run)
    requires s == [] || !IsWhitespace(s[0])
    ensures SkipWhitespace(run + s) == s
    decreases |run|
  {
    if run != [] {
      assert (run + s)[1..] == run[1..] + s;
      SkipRun(run[1..], s);
    } else {
      assert run + s == s;
    }
  }

  /** The characters of `s` that are neither whitespace nor '-'. */
  function Letters(s: string): string
    decreases |s|
  {
    if s == [] then []
    else if IsWhitespace(s[0]) || s[0] == '-' then Letters(s[1..])
    else [s[0]] + Letters(s[1..])
  }

  lemma {:induction false} LettersSkipWhitespace(s: string)
    ensures Letters(SkipWhitespace(s)) == Letters(s)
    decreases |s|
  {
    if s != [] && IsWhitespace(s[0]) {
      LettersSkipWhitespace(s[1..]);
    }
  }

  /** Every character other than whitespace and '-' survives, in order. */
  lemma {:induction false} CollapseKeepsLetters(s: string)
    ensures Letters(CollapseWhitespace(s)) == Letters(s)
    decreases |s|
  {
    if s == [] {
    } else if IsWhitespace(s[0]) {
      var rest := SkipWhitespace(s);
      CollapseKeepsLetters(rest);
      LettersSkipWhitespace(s);
      assert ("-" + CollapseWhitespace(rest))[1..] == CollapseWhitespace(rest);
    } else {
      CollapseKeepsLetters(s[1..]);
      assert ([s[0]] + CollapseWhitespace(s[1..]))[1..] == CollapseWhitespace(s[1..]);
    }
  }

  /** Two words separated by any whitespace run give the id
      "video-schema-<first>-<second>". */
  lemma SchemaIdOfTwoWords(first: string, run: string, second: string)
    requires NoWhitespace(first) && NoWhitespace(second)
    requires run != [] && AllWhitespace(run)
    ensures SchemaId(first + run + second) == "video-schema-" + first + "-" + second
  {
    var tail := run + second;
    assert first + run + second == first + tail;
    assert second == [] || !IsWhitespace(second[0]);
    CollapseRunThenRest(run, second);
    CollapseKeepsWord(second);
    assert CollapseWhitespace(tail) == "-" + second;
    CollapseWordThenRest(first, tail);
    assert CollapseWhitespace(first + tail) == first + ("-" + second);
  }

  // ---------------------------------------------------------------------
  // The VideoObject schema
  // ---------------------------------------------------------------------

  /** Duration used when none is given. */
  const DefaultDuration: string := "PT2M"

  datatype VideoProps = VideoProps(
    src: string, poster: string, title: string, description: string,
    uploadDate: string, duration: Option<string>)

  datatype VideoObject = VideoObject(
    context: string, kind: string, name: string, description: string,
    thumbnailUrl: seq<string>, uploadDate: string, duration: string,
    contentUrl: string, embedUrl: string)

  /** The JSON-LD record injected for search engines. It points at the
      original `src`, never at the rewritten player URL, and falls back to
      a two-minute duration. */
  function Schema(props: VideoProps): (o: VideoObject)
    ensures o.contentUrl == props.src && o.embedUrl == props.src
    ensures props.duration.None? ==> o.duration == "PT2M"
    ensures props.duration.Some? ==> o.duration == props.duration.value
    ensures o.name == props.title && o.thumbnailUrl == [props.poster]
  {
    VideoObject(
      "https://schema.org", "VideoObject", props.title, props.description,
      [props.poster], props.uploadDate, if props.duration.Some? then props.duration.value else DefaultDuration,
      props.src, props.src)
  }

  /** When the player URL had to be rewritten, the schema's URLs differ
      from it: they carry no first-frame fragment. */
  lemma SchemaUsesRawSrc(props: VideoProps)
    requires '#' !in props.src
    ensures Schema(props).contentUrl != VideoSrc(props.src)
    ensures '#' !in Schema(props).embedUrl
  {
    VideoSrcCases(props.src);
  }

  // ---------------------------------------------------------------------
  // Play / pause
  // ---------------------------------------------------------------------

  /** `hasElement` is whether the ref points at the mounted <video>. */
  datatype Player = Player(hasElement: bool, isPlaying: bool)

  /** Call made on the <video> element. */
  datatype Command = Play | Pause

  datatype Toggled = Toggled(player: Player, command: Option<Command>)

  /** The overlay's click handler: with a mounted video, pause it if
      playing and play it otherwise, and flip `isPlaying`; with no video,
      do nothing. */
  function TogglePlay(p: Player): Toggled {
    if !p.hasElement then Toggled(p, None)
    else Toggled(p.(isPlaying := !p.isPlaying), Some(if p.isPlaying then Pause else Play))
  }

  /** The element's `onPlay` and `onPause` handlers. */
  function OnPlay(p: Player): Player {
    p.(isPlaying := true)
  }

  function OnPause(p: Player): Player {
    p.(isPlaying := false)
  }

  /** The event the browser fires once a command takes effect. */
  function Echo(c: Command, p: Player): Player {
    match c
    case Play => OnPlay(p)
    case Pause => OnPause(p)
  }

  /** Native controls are on while playing; the play overlay is shown
      while not. */
  predicate ControlsShown(p: Player) {
    p.isPlaying
  }

  predicate OverlayShown(p: Player) {
    !p.isPlaying
  }

  /** Exactly one of the native controls and the overlay is visible. */
  lemma ExactlyOneSurface(p: Player)
    ensures ControlsShown(p) != OverlayShown(p)
  {
  }

  /** A toggle flips the state and issues the matching command when the
      video is mounted, and is a no-op otherwise. */
  lemma ToggleEffect(p: Player)
    ensures p.hasElement ==> TogglePlay(p).player.isPlaying == !p.isPlaying
    ensures p.hasElement ==> TogglePlay(p).command == Some(if p.isPlaying then Pause else Play)
    ensures !p.hasElement ==> TogglePlay(p) == Toggled(p, None)
    ensures TogglePlay(TogglePlay(p).player).player == p
  {
  }

  /** The browser's answer to the toggle's command confirms the state the
      toggle already set, so the element's handlers never undo a toggle. */
  lemma EchoConfirmsToggle(p: Player)
    requires p.hasElement
    ensures var t := TogglePlay(p);
      t.command.Some? && Echo(t.command.value, t.player) == t.player
  {
  }

  /** Playing or pausing through the native controls updates the state
      the same way: after a play event the controls show, after a pause
      event the overlay does. */
  lemma NativeEventsDriveSurface(p: Player)
    ensures ControlsShown(OnPlay(p)) && !OverlayShown(OnPlay(p))
    ensures OverlayShown(OnPause(p)) && !ControlsShown(OnPause(p))
  {
  }
}
