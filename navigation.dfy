/**
 * The navigation decisions of the main activity, each stated as the action it
 * chooses: routing an incoming intent to a content screen, ignoring a
 * re-launch from the home-screen launcher, the first screen at start-up, the
 * back press, the up button, and the requested screen orientation.
 */
module Navigation {
  import opened Wrappers

  const ACTION_MAIN: string := "android.intent.action.MAIN"
  const CATEGORY_LAUNCHER: string := "android.intent.category.LAUNCHER"

  /**
   * The kind of content a link points to. `OtherLink` is any other constant of
   * the link-type enumeration (such as NONE): the activity has no screen for it.
   */
  datatype LinkType = Stream | Channel | Playlist | OtherLink

  /** A queue of streams handed to the player, with the index of the current one. */
  datatype PlayQueue = PlayQueue(streams: seq<string>, index: nat)

  /**
   * An incoming intent, restricted to what the activity reads from it; `None`
   * is an absent extra, and `openSearch` is whether the open-search extra is
   * present at all.
   */
  datatype Intent = Intent(
    action: Option<string>,
    categories: set<string>,
    linkType: Option<LinkType>,
    url: Option<string>,
    serviceId: Option<int>,
    title: Option<string>,
    autoPlay: Option<bool>,
    playQueue: Option<PlayQueue>,
    openSearch: bool,
    query: Option<string>)

  /** The fragment transaction the activity asks for. */
  datatype NavAction =
    | OpenVideoDetail(serviceId: int, url: Option<string>, title: Option<string>, autoPlay: bool, playQueue: Option<PlayQueue>)
    | OpenChannel(serviceId: int, url: Option<string>, title: Option<string>)
    | OpenPlaylist(serviceId: int, url: Option<string>, title: Option<string>)
    | OpenSearch(serviceId: int, query: string)
    | GotoMain
    | NoNavigation   // the link-type switch matched no case: the fragment holder is left as it is

  /** The kind of content an action opens, when it opens a stream, a channel or a playlist. */
  function OpenedLink(a: NavAction): Option<LinkType> {
    match a
    case OpenVideoDetail(_, _, _, _, _) => Some(Stream)
    case OpenChannel(_, _, _) => Some(Channel)
    case OpenPlaylist(_, _, _) => Some(Playlist)
    case _ => None
  }

  /**
   * handleIntent: a stream, channel or playlist link type opens the screen of
   * that kind, and any other link type opens nothing; without a link type the
   * open-search extra opens search, and otherwise the main screen opens. The
   * service id defaults to 0, auto-play to false and a missing query to the
   * empty string; url, title and play queue are passed on as they are.
   */
  function HandleIntent(i: Intent): (a: NavAction)
    ensures OpenedLink(a).Some? <==> i.linkType.Some? && i.linkType != Some(OtherLink)
    ensures OpenedLink(a).Some? ==> OpenedLink(a) == i.linkType
    ensures a.NoNavigation? <==> i.linkType == Some(OtherLink)
    ensures a.OpenSearch? <==> i.linkType.None? && i.openSearch
    ensures a.GotoMain? <==> i.linkType.None? && !i.openSearch
    ensures OpenedLink(a).Some? || a.OpenSearch? ==> a.serviceId == i.serviceId.GetOr(0)
    ensures OpenedLink(a).Some? ==> a.url == i.url && a.title == i.title
    ensures a.OpenVideoDetail? ==> a.autoPlay == i.autoPlay.GetOr(false) && a.playQueue == i.playQueue
    ensures a.OpenSearch? ==> a.query == i.query.GetOr("")
  {
    if i.linkType.Some? then
      var serviceId := i.serviceId.GetOr(0);
      match i.linkType.value
      case Stream => OpenVideoDetail(serviceId, i.url, i.title, i.autoPlay.GetOr(false), i.playQueue)
      case Channel => OpenChannel(serviceId, i.url, i.title)
      case Playlist => OpenPlaylist(serviceId, i.url, i.title)
      case OtherLink => NoNavigation
    else if i.openSearch then
      OpenSearch(i.serviceId.GetOr(0), i.query.GetOr(""))
    else
      GotoMain
  }

  /** The intent that carries exactly the extras of an action, and nothing else. */
  function IntentFor(a: NavAction): Intent {
    var none := Intent(None, {}, None, None, None, None, None, None, false, None);
    match a
    case OpenVideoDetail(serviceId, url, title, autoPlay, playQueue) =>
      none.(linkType := Some(Stream), serviceId := Some(serviceId), url := url, title := title,
            autoPlay := Some(autoPlay), playQueue := playQueue)
    case OpenChannel(serviceId, url, title) =>
      none.(linkType := Some(Channel), serviceId := Some(serviceId), url := url, title := title)
    case OpenPlaylist(serviceId, url, title) =>
      none.(linkType := Some(Playlist), serviceId := Some(serviceId), url := url, title := title)
    case OpenSearch(serviceId, query) =>
      none.(openSearch := true, serviceId := Some(serviceId), query := Some(query))
    case GotoMain => none
    case NoNavigation => none.(linkType := Some(OtherLink))
  }

  /** Every action is reached by the intent carrying its extras: routing loses nothing. */
  lemma RoutingRoundTrip(a: NavAction)
    ensures HandleIntent(IntentFor(a)) == a
  {
  }

  /** A link type wins over the open-search extra. */
  lemma LinkTypeTakesPriority(i: Intent)
    requires i.linkType.Some? && i.openSearch
    ensures !HandleIntent(i).OpenSearch? && !HandleIntent(i).GotoMain?
    ensures i.linkType != Some(OtherLink) ==> OpenedLink(HandleIntent(i)) == i.linkType
  {
  }

  /**
   * The intent the home-screen launcher sends: action MAIN with category
   * LAUNCHER. An intent without an action is never one.
   */
  function LaunchedFromLauncher(i: Intent): (launcher: bool)
    ensures i.action.None? ==> !launcher
    ensures launcher <==> i.action == Some(ACTION_MAIN) && CATEGORY_LAUNCHER in i.categories
  {
    i.action == Some(ACTION_MAIN) && CATEGORY_LAUNCHER in i.categories
  }

  /** What onNewIntent does with an intent (`None` is a null intent). */
  datatype NewIntentOutcome =
    | Ignored             // a launcher re-launch: the existing back stack is kept
    | Handled(action: NavAction)
    | NullIntentFailure   // handleIntent dereferences the null intent

  /**
   * onNewIntent: a launcher intent is ignored; any other intent is routed by
   * handleIntent; a null intent passes the guard and fails in handleIntent.
   */
  function OnNewIntent(i: Option<Intent>): (o: NewIntentOutcome)
    ensures o.Ignored? <==> i.Some? && LaunchedFromLauncher(i.value)
    ensures o.NullIntentFailure? <==> i.None?
    ensures o.Handled? ==> i.Some? && o.action == HandleIntent(i.value)
  {
    match i
    case None => NullIntentFailure
    case Some(intent) =>
      if LaunchedFromLauncher(intent) then Ignored else Handled(HandleIntent(intent))
  }

  /**
   * The first screen chosen when the activity is created: nothing when the
   * back stack was restored; handleIntent's choice when the start intent has a
   * link type (which opens no screen for a link type other than stream,
   * channel or playlist); the main screen otherwise.
   */
  function InitialNavigation(backStackCount: nat, i: Option<Intent>): (r: Option<NavAction>)
    ensures r.None? <==> backStackCount != 0
    ensures r == Some(NoNavigation) <==> backStackCount == 0 && i.Some? && i.value.linkType == Some(OtherLink)
    ensures r.Some? && i.Some? && i.value.linkType.Some? ==> r.value == HandleIntent(i.value)
    ensures r.Some? && (i.None? || i.value.linkType.None?) ==> r.value == GotoMain
  {
    if backStackCount != 0 then None
    else if i.Some? && i.value.linkType.Some? then Some(HandleIntent(i.value))
    else Some(GotoMain)
  }

  /**
   * At start-up only a link type is routed: an open-search intent without one
   * opens the main screen, where a new intent would open search.
   */
  lemma StartUpIgnoresOpenSearch(i: Intent)
    requires i.linkType.None? && i.openSearch && !LaunchedFromLauncher(i)
    ensures InitialNavigation(0, Some(i)) == Some(GotoMain)
    ensures OnNewIntent(Some(i)) == Handled(OpenSearch(i.serviceId.GetOr(0), i.query.GetOr("")))
  {
  }

  /** The fragment in the holder, as far as back presses go. */
  datatype HolderFragment =
    | NotBackPressable            // absent, or does not handle back presses
    | BackPressable(consumes: bool) // its own onBackPressed answer

  /** sendBackPressedEvent: whether the current fragment consumed the back press. */
  function SendBackPressedEvent(f: HolderFragment): (consumed: bool)
    ensures consumed <==> f == BackPressable(true)
  {
    f.BackPressable? && f.consumes
  }

  datatype BackOutcome = ConsumedByFragment | FinishActivity | DefaultBack

  /**
   * onBackPressed: a fragment that consumes the press ends it; otherwise a back
   * stack of exactly one entry finishes the activity, and any other size gets
   * the default back behaviour.
   */
  function OnBackPressed(f: HolderFragment, backStackCount: nat): (o: BackOutcome)
    ensures o.ConsumedByFragment? <==> f.BackPressable? && f.consumes
    ensures o.FinishActivity? <==> !(f.BackPressable? && f.consumes) && backStackCount == 1
    ensures o.DefaultBack? <==> !(f.BackPressable? && f.consumes) && backStackCount != 1
  {
    if SendBackPressedEvent(f) then ConsumedByFragment
    else if backStackCount == 1 then FinishActivity
    else DefaultBack
  }

  datatype UpTarget = SearchFragment | MainFragment

  /** onHomeButtonPressed: back to the search screen when it is on the back stack, else to the main screen. */
  function OnHomeButtonPressed(searchFragmentOnBackStack: bool): (t: UpTarget)
    ensures t == SearchFragment <==> searchFragmentOnBackStack
    ensures t == MainFragment <==> !searchFragmentOnBackStack
  {
    if searchFragmentOnBackStack then SearchFragment else MainFragment
  }

  /** The platform's values for the requested orientations used here. */
  const SCREEN_ORIENTATION_UNSPECIFIED: int := -1
  const SCREEN_ORIENTATION_SENSOR_LANDSCAPE: int := 6
  const SCREEN_ORIENTATION_SENSOR_PORTRAIT: int := 7

  /**
   * globalScreenOrientationLocked: rotation is locked unless the accelerometer
   * rotation setting is 1; a missing setting counts as 0.
   */
  function GlobalScreenOrientationLocked(accelerometerRotation: Option<int>): (locked: bool)
    ensures locked <==> accelerometerRotation != Some(1)
  {
    !(accelerometerRotation.GetOr(0) == 1)
  }

  /**
   * setupOrientation: the value passed to setRequestedOrientation, if any.
   * Nothing without preferences; unspecified while rotation is unlocked; when
   * locked, sensor-landscape exactly if the last orientation was landscape (a
   * missing preference counts as false), sensor-portrait otherwise.
   */
  function SetupOrientation(preferencesLoaded: bool, accelerometerRotation: Option<int>,
                            lastOrientationLandscape: Option<bool>): (r: Option<int>)
    ensures r.None? <==> !preferencesLoaded
    ensures r == Some(SCREEN_ORIENTATION_UNSPECIFIED) <==> preferencesLoaded && accelerometerRotation == Some(1)
    ensures r == Some(SCREEN_ORIENTATION_SENSOR_LANDSCAPE) <==>
      preferencesLoaded && accelerometerRotation != Some(1) && lastOrientationLandscape == Some(true)
    ensures r == Some(SCREEN_ORIENTATION_SENSOR_PORTRAIT) <==>
      preferencesLoaded && accelerometerRotation != Some(1) && lastOrientationLandscape != Some(true)
  {
    if !preferencesLoaded then None
    else if GlobalScreenOrientationLocked(accelerometerRotation) then
      if lastOrientationLandscape.GetOr(false) then Some(SCREEN_ORIENTATION_SENSOR_LANDSCAPE)
      else Some(SCREEN_ORIENTATION_SENSOR_PORTRAIT)
    else Some(SCREEN_ORIENTATION_UNSPECIFIED)
  }
}
