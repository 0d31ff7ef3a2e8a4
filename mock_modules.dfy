/**
 * The stand-ins used when the GUI and audio libraries are missing: the
 * playback flags of the mixer's music, sounds and channels, the keyboard's
 * hotkey registry, the stub screenshot size and the fixed OCR result.
 */
module MockModules {
  import opened Wrappers
  import opened Actions
  import opened Ocr
  import opened Text
  import opened ScreenVision

  // ---------------------------------------------------------------------------
  // pygame.mixer.music

  /** `MockMusic`: music is audible when it plays and is not paused. */
  class MockMusic {
    var playing: bool
    var paused: bool

    constructor ()
      ensures !playing && !paused
    {
      playing := false;
      paused := false;
    }

    /** `get_busy`. */
    function Busy(): bool
      reads this
    {
      playing && !paused
    }

    method Play()
      modifies this
      ensures playing && !paused
      ensures Busy()
    {
      playing := true;
      paused := false;
    }

    method Stop()
      modifies this
      ensures !playing && !paused
      ensures !Busy()
    {
      playing := false;
      paused := false;
    }

    method Pause()
      modifies this
      ensures paused && playing == old(playing)
      ensures !Busy()
    {
      paused := true;
    }

    method Unpause()
      modifies this
      ensures !paused && playing == old(playing)
      ensures Busy() == old(playing)
    {
      paused := false;
    }

    /** Fading out stops the music but leaves the pause flag as it was. */
    method Fadeout(time: int)
      modifies this
      ensures !playing && paused == old(paused)
      ensures !Busy()
    {
      playing := false;
    }

    /** `load`, `set_volume` and `set_pos` change nothing. */
    method Load(filename: string)
      ensures Busy() == old(Busy())
    {
    }
  }

  // ---------------------------------------------------------------------------
  // pygame.mixer.Sound and its channel

  /** `MockChannel`: a channel is busy from its creation until stopped or faded out. */
  class MockChannel {
    var playing: bool

    constructor ()
      ensures playing
    {
      playing := true;
    }

    /** `get_busy`. */
    function Busy(): bool
      reads this
    {
      playing
    }

    method Play()
      modifies this
      ensures Busy()
    {
      playing := true;
    }

    method Stop()
      modifies this
      ensures !Busy()
    {
      playing := false;
    }

    /** Pausing and unpausing a channel are no-ops. */
    method Pause()
      ensures Busy() == old(Busy())
    {
    }

    method Unpause()
      ensures Busy() == old(Busy())
    {
    }

    method Fadeout(time: int)
      modifies this
      ensures !Busy()
    {
      playing := false;
    }
  }

  /** `MockSound`: playing returns a new channel that is busy. */
  class MockSound {
    var playing: bool

    constructor ()
      ensures !playing
    {
      playing := false;
    }

    method Play() returns (channel: MockChannel)
      modifies this
      ensures playing
      ensures fresh(channel) && channel.Busy()
    {
      playing := true;
      channel := new MockChannel();
    }

    method Stop()
      modifies this
      ensures !playing
    {
      playing := false;
    }

    method Fadeout(time: int)
      modifies this
      ensures !playing
    {
      playing := false;
    }
  }

  /**
   * The sequence of calls in the mixer test: music plays, pauses, resumes and stops; a sound
   * is played, stopped and faded out, and its channel replayed, stopped and faded out.
   */
  method MixerScenario() returns (musicBusyAfterPlay: bool, musicBusyAfterStop: bool,
                                  channelBusyAfterPlay: bool, channelBusyAtEnd: bool)
    ensures musicBusyAfterPlay && !musicBusyAfterStop
    ensures channelBusyAfterPlay && !channelBusyAtEnd
  {
    var music := new MockMusic();
    music.Load("test.mp3");
    music.Play();
    musicBusyAfterPlay := music.Busy();
    music.Pause();
    music.Unpause();
    music.Stop();
    musicBusyAfterStop := music.Busy();
    music.Fadeout(1000);

    var sound := new MockSound();
    var channel := sound.Play();
    channelBusyAfterPlay := channel.Busy();
    sound.Stop();
    sound.Fadeout(1000);
    channel.Play();
    channel.Stop();
    channel.Pause();
    channel.Unpause();
    channel.Fadeout(1000);
    channelBusyAtEnd := channel.Busy();
  }

  /** A sound's channel stays busy when the sound itself is stopped: they are separate objects. */
  method StoppingSoundKeepsChannel() returns (channelBusy: bool, soundPlaying: bool)
    ensures channelBusy && !soundPlaying
  {
    var sound := new MockSound();
    var channel := sound.Play();
    sound.Stop();
    channelBusy := channel.Busy();
    soundPlaying := sound.playing;
  }

  // ---------------------------------------------------------------------------
  // keyboard

  /** A registered callback, identified by the caller. */
  datatype Callback = Callback(id: nat)

  /** `MockKeyboard`: a registry of hotkeys; no key is ever pressed. */
  class MockKeyboard {
    var hotkeys: map<string, Callback>

    constructor ()
      ensures hotkeys == map[]
    {
      hotkeys := map[];
    }

    /** `add_hotkey` stores or replaces the callback of `hotkey`. */
    method AddHotkey(hotkey: string, callback: Callback)
      modifies this
      ensures hotkeys == old(hotkeys)[hotkey := callback]
    {
      hotkeys := hotkeys[hotkey := callback];
    }

    /** `remove_hotkey` removes nothing. */
    method RemoveHotkey(hotkey: string)
      ensures hotkeys == old(hotkeys)
    {
    }

    /** `is_pressed`. */
    method IsPressed(key: string) returns (pressed: bool)
      ensures !pressed
    {
      pressed := false;
    }
  }

  /** Registering twice keeps only the second callback, and removal leaves it registered. */
  method HotkeyScenario(first: Callback, second: Callback) returns (registered: Option<Callback>, count: nat)
    ensures registered == Some(second) && count == 1
  {
    var keyboard := new MockKeyboard();
    keyboard.AddHotkey("ctrl+c", first);
    keyboard.AddHotkey("ctrl+c", second);
    keyboard.RemoveHotkey("ctrl+c");
    registered := if "ctrl+c" in keyboard.hotkeys then Some(keyboard.hotkeys["ctrl+c"]) else None;
    count := |keyboard.hotkeys|;
  }

  // ---------------------------------------------------------------------------
  // pyautogui.screenshot and pytesseract.image_to_data

  /** The size of the black image `MockPyAutoGUI.screenshot` returns. */
  function ScreenshotSize(region: Option<Region>): (size: (int, int))
    ensures region.None? ==> size == (100, 100)
    ensures region.Some? ==> size == (region.value.width, region.value.height)
  {
    match region
    case None => (100, 100)
    case Some(r) => (r.width, r.height)
  }

  /** The OCR result `MockPyTesseract.image_to_data` returns for any image. */
  const MOCK_OCR: OcrData := OcrData(
    ["Пример", "текста", "на", "экране"],
    [90, 85, 95, 80],
    [10, 100, 200, 300],
    [10, 10, 10, 10],
    [80, 80, 80, 80],
    [30, 30, 30, 30])

  /** The columns have equal length and every token passes the default threshold. */
  lemma MockOcrIsUsable()
    ensures WellFormed(MOCK_OCR)
    ensures forall i :: 0 <= i < |MOCK_OCR.text| ==> Passes(MOCK_OCR, i, DEFAULT_THRESHOLD)
  {
    assert forall i :: 0 <= i < 4 ==> MOCK_OCR.conf[i] >= 80;
  }

  /** On the stub OCR result the locator finds "Пример" at the first box. */
  lemma MockOcrLocatesFirstWord()
    ensures WellFormed(MOCK_OCR)
    ensures Locate(MOCK_OCR, "Пример", DEFAULT_THRESHOLD) == Some(Region(10, 10, 80, 30))
  {
    MockOcrIsUsable();
    var target := "Пример";
    assert Lower(target) == Lower(MOCK_OCR.text[0]);
    assert Lower(target)[0] == 'п';
    assert Lower(MOCK_OCR.text[1])[0] == 'т';
    assert |Lower(MOCK_OCR.text[2])| == 2;
    assert Lower(MOCK_OCR.text[3])[0] == 'э';
    assert forall i :: 1 <= i < 4 ==> !IsExact(target, MOCK_OCR.text[i]);
    ExactBeatsPartial(MOCK_OCR, target, DEFAULT_THRESHOLD, 0);
  }

  /** With the stub OCR result, clicking "Пример" clicks once at the centre (50, 25) of its box. */
  method MockClickScenario() returns (ok: bool, events: seq<Action>)
    ensures ok && events == [Capture(None), Click(Point(50, 25))]
  {
    MockOcrLocatesFirstWord();
    ok, events := ClickElementByText(true, Some(MOCK_OCR), "Пример", false);
  }
}
