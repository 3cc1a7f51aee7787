/** The main window's own state: the media handles that every page switch
    releases and the new page acquires, which page the menu shows, and the
    loading spinner. The two windows, project.py's and Gui.py's, are told
    apart by a `Variant`. */
module Shell {
  import opened Wrappers
  import Cyclic

  datatype Page = Home | Gallery | Camera | VideoPlayer | MusicPlayer | Tools | Settings

  /** The rows of the side menu, top to bottom. */
  const MenuItems: seq<string> :=
    ["Home", "Gallery", "Camera", "Video Player", "Music Player", "Tools", "Settings"]

  /** The menu row that lists a page. */
  function Row(p: Page): nat {
    match p
    case Home => 0
    case Gallery => 1
    case Camera => 2
    case VideoPlayer => 3
    case MusicPlayer => 4
    case Tools => 5
    case Settings => 6
  }

  /** `switch_page`'s `if index == 0 … elif index == 6` chain; any other
      row (Qt reports -1 when the selection is cleared) shows no page. */
  function PageForRow(row: int): (r: Option<Page>)
    ensures r.Some? <==> 0 <= row < |MenuItems|
    ensures r.Some? ==> Row(r.value) == row
  {
    if row == 0 then Some(Home)
    else if row == 1 then Some(Gallery)
    else if row == 2 then Some(Camera)
    else if row == 3 then Some(VideoPlayer)
    else if row == 4 then Some(MusicPlayer)
    else if row == 5 then Some(Tools)
    else if row == 6 then Some(Settings)
    else None
  }

  /** Exactly the menu's rows show a page, and the row a page is listed
      under is the row that shows it: dispatch is a bijection between
      menu rows and pages. */
  lemma DispatchMatchesMenu(p: Page)
    ensures PageForRow(Row(p)) == Some(p)
    ensures MenuItems[Row(p)] == PageTitle(p)
  {
  }

  /** The title a page has in the side menu. */
  function PageTitle(p: Page): string {
    match p
    case Home => "Home"
    case Gallery => "Gallery"
    case Camera => "Camera"
    case VideoPlayer => "Video Player"
    case MusicPlayer => "Music Player"
    case Tools => "Tools"
    case Settings => "Settings"
  }

  /** The glyphs the spinner label cycles through. */
  const SpinnerChars: seq<string> :=
    ["\U{2699}\U{FE0F}", "\U{26A1}", "\U{2B50}", "\U{2728}", "\U{1F4AB}", "\U{1F504}"]

  /** Ticking `update_spinner` shows glyph `i` again after exactly six
      ticks, never sooner, and the six glyphs are distinct. */
  lemma SpinnerPeriod(i: int, k: nat)
    requires 0 <= i < |SpinnerChars| && 0 < k < |SpinnerChars|
    ensures Cyclic.Iterate(i, |SpinnerChars|, |SpinnerChars|) == i
    ensures SpinnerChars[Cyclic.Iterate(i, k, |SpinnerChars|)] != SpinnerChars[i]
  {
    Cyclic.FullCycle(i, |SpinnerChars|);
    Cyclic.NoShorterCycle(i, k, |SpinnerChars|);
  }

  /** Which media handles the window holds (true where Python's attribute is not None). */
  datatype Handles = Handles(timer: bool, cap: bool, mediaPlayer: bool, audioPlayer: bool, videoWidget: bool)

  /** The two main windows: project.py's and Gui.py's. */
  datatype Variant = ProjectWindow | GuiWindow

  /** The handles after `cleanup_resources`: all released, except that
      project.py's cleanup leaves the video widget alone. */
  function Released(h: Handles, variant: Variant): (r: Handles)
    ensures !r.timer && !r.cap && !r.mediaPlayer && !r.audioPlayer
    ensures r.videoWidget <==> h.videoWidget && variant == ProjectWindow
  {
    Handles(false, false, false, false, if variant == GuiWindow then false else h.videoWidget)
  }

  /** Cleaning up twice is cleaning up once. */
  lemma ReleasedIdempotent(h: Handles, variant: Variant)
    ensures Released(Released(h, variant), variant) == Released(h, variant)
  {
  }

  /** The handles after the page `p` has been built on top of `h`: the video
      page creates the video widget and its player, the music page an audio
      player, and Gui.py's camera page a capture, plus the frame timer when
      the camera opened. project.py's camera page opens the camera only
      later (`OpenCamera`). Every other handle is left as it was. */
  function Acquired(p: Option<Page>, h: Handles, variant: Variant, cameraOpens: bool): (r: Handles)
    ensures p == Some(VideoPlayer) ==> r.videoWidget && r.mediaPlayer
    ensures p == Some(MusicPlayer) ==> r.audioPlayer
    ensures p == Some(Camera) && variant == GuiWindow ==> r.cap && (r.timer <==> h.timer || cameraOpens)
    ensures p != Some(VideoPlayer) ==> r.videoWidget == h.videoWidget && r.mediaPlayer == h.mediaPlayer
    ensures p != Some(MusicPlayer) ==> r.audioPlayer == h.audioPlayer
    ensures p != Some(Camera) || variant == ProjectWindow ==> r.cap == h.cap && r.timer == h.timer
  {
    match p
    case Some(VideoPlayer) => h.(videoWidget := true, mediaPlayer := true)
    case Some(MusicPlayer) => h.(audioPlayer := true)
    case Some(Camera) =>
      if variant == ProjectWindow then h
      else h.(cap := true, timer := h.timer || cameraOpens)
    case _ => h
  }

  /** Whether building the page `p` opens the loading overlay: in project.py
      the gallery and the camera page do, once their access dialog is
      answered yes. */
  predicate ShowsLoading(p: Option<Page>, variant: Variant, granted: bool) {
    variant == ProjectWindow && granted && (p == Some(Gallery) || p == Some(Camera))
  }

  /** After a page switch the player handles are exactly those of the page
      now shown: the media player only on the video page, the audio player
      only on the music page, and the capture and frame timer only on
      Gui.py's camera page (the timer only when the camera opened). Only
      the video widget outlives its page, and only in project.py. */
  lemma {:induction false} SwitchLeavesOnlyPageHandles(row: int, h: Handles, variant: Variant, cameraOpens: bool)
    ensures var r := Acquired(PageForRow(row), Released(h, variant), variant, cameraOpens);
            && (r.mediaPlayer <==> row == Row(VideoPlayer))
            && (r.audioPlayer <==> row == Row(MusicPlayer))
            && (r.cap <==> row == Row(Camera) && variant == GuiWindow)
            && (r.timer <==> row == Row(Camera) && variant == GuiWindow && cameraOpens)
            && (r.videoWidget <==> row == Row(VideoPlayer) || (variant == ProjectWindow && h.videoWidget))
  {
    var p := PageForRow(row);
    if p.Some? {
      assert Row(p.value) == row;
    } else {
      assert row != Row(VideoPlayer) && row != Row(MusicPlayer) && row != Row(Camera);
    }
  }

  class MainWindow {
    /** Which of the two windows this is. */
    const variant: Variant

    var timer: bool
    var cap: bool
    var mediaPlayer: bool
    var audioPlayer: bool
    var videoWidget: bool

    /** The page the pages area shows. */
    var page: Option<Page>

    var spinnerState: int
    /** The spinner label's text, `None` before the first loading overlay. */
    var spinnerLabel: Option<string>

    ghost predicate Valid()
      reads this
    {
      0 <= spinnerState < |SpinnerChars|
      && (spinnerLabel.Some? ==> spinnerLabel.value == SpinnerChars[spinnerState])
    }

    function CurrentHandles(): Handles
      reads this
    {
      Handles(timer, cap, mediaPlayer, audioPlayer, videoWidget)
    }

    /** `__init__`: no media handle, and the home page shown. */
    constructor (variant: Variant)
      ensures Valid() && this.variant == variant
      ensures CurrentHandles() == Handles(false, false, false, false, false)
      ensures page == Some(Home) && spinnerLabel == None
    {
      this.variant := variant;
      timer, cap, mediaPlayer, audioPlayer, videoWidget := false, false, false, false, false;
      page := Some(Home);
      spinnerState := 0;
      spinnerLabel := None;
    }

    /** `cleanup_resources`: stop and drop every handle the window holds. */
    method CleanupResources()
      requires Valid()
      modifies this
      ensures Valid()
      ensures CurrentHandles() == Released(old(CurrentHandles()), variant)
      ensures page == old(page)
      ensures spinnerState == old(spinnerState) && spinnerLabel == old(spinnerLabel)
    {
      if timer { timer := false; }
      if cap { cap := false; }
      if mediaPlayer { mediaPlayer := false; }
      if audioPlayer { audioPlayer := false; }
      if variant == GuiWindow { videoWidget := false; }
    }

    /** `switch_page`: release the media, clear the pages area and build the
        page of `row`. `granted` is the answer to the page's access dialog
        (project.py's gallery and camera pages ask one) and `cameraOpens`
        whether `cv2.VideoCapture(0)` opened the camera. */
    method SwitchPage(row: int, granted: bool, cameraOpens: bool)
      requires Valid()
      modifies this
      ensures Valid()
      ensures page == PageForRow(row)
      ensures CurrentHandles() == Acquired(page, Released(old(CurrentHandles()), variant), variant, cameraOpens)
      ensures ShowsLoading(page, variant, granted) ==>
                spinnerState == 0 && spinnerLabel == Some(SpinnerChars[0])
      ensures !ShowsLoading(page, variant, granted) ==>
                spinnerState == old(spinnerState) && spinnerLabel == old(spinnerLabel)
    {
      CleanupResources();
      page := PageForRow(row);
      match page
      case Some(VideoPlayer) =>
        videoWidget := true;
        mediaPlayer := true;
      case Some(MusicPlayer) =>
        audioPlayer := true;
      case Some(Camera) =>
        if variant == GuiWindow {
          cap := true;
          if cameraOpens { timer := true; }
        } else if granted {
          ShowLoading();
        }
      case Some(Gallery) =>
        if variant == ProjectWindow && granted { ShowLoading(); }
      case _ =>
    }

    /** project.py's `_open_camera`, run by the timer the camera page starts:
        the capture is created, and the frame timer once the camera opened. */
    method OpenCamera(cameraOpens: bool)
      requires Valid() && variant == ProjectWindow
      modifies this
      ensures Valid()
      ensures cap && (timer <==> old(timer) || cameraOpens)
      ensures mediaPlayer == old(mediaPlayer) && audioPlayer == old(audioPlayer)
      ensures videoWidget == old(videoWidget) && page == old(page)
      ensures spinnerState == old(spinnerState) && spinnerLabel == old(spinnerLabel)
    {
      cap := true;
      if cameraOpens { timer := true; }
    }

    /** The spinner part of `show_loading`: a new label showing the first glyph, state 0. */
    method ShowLoading()
      modifies this
      ensures Valid()
      ensures spinnerState == 0 && spinnerLabel == Some(SpinnerChars[0])
      ensures CurrentHandles() == old(CurrentHandles()) && page == old(page)
    {
      spinnerState := 0;
      spinnerLabel := Some(SpinnerChars[0]);
    }
    /** `update_spinner`: once a label exists, advance to the next glyph, wrapping after the sixth. */
    method UpdateSpinner()
      requires Valid()
      modifies this
      ensures Valid()
      ensures spinnerState == if old(spinnerLabel).Some?
                              then Cyclic.Succ(old(spinnerState), |SpinnerChars|) else old(spinnerState)
      ensures spinnerLabel.Some? == old(spinnerLabel).Some?
      ensures CurrentHandles() == old(CurrentHandles()) && page == old(page)
    {
      if spinnerLabel.Some? {
        spinnerState := (spinnerState + 1) % |SpinnerChars|;
        spinnerLabel := Some(SpinnerChars[spinnerState]);
      }
    }
  }
}
