/** The words of the Worker's vocabulary, and that they are words: distinct in each list, and without the
    characters that separate. The lists are literals, gone through element by element; AllAreWords puts
    the parts together. */
module HealthWords {
  import opened Sorting
  import opened HealthCodec

  const DRIVERS: seq<string> := ["rtlsdr", "hackrf", "airspy", "airspyhf", "sdrplay", "mirisdr", "rx888",
    "pluto", "aor", "hydrasdr", "rtltcp", "soapy", "soundcard", "other"]
  const RADIO_REASONS: seq<string> := ["busy", "driver", "bind", "absent", "timeout", "vendor", "rate", "other"]
  const SOUND_HOSTS: seq<string> := ["mme", "dsound", "wasapi", "wdmks", "asio", "alsa", "jack", "oss",
    "coreaudio", "none", "other"]
  const SOUND_REASONS: seq<string> := ["nodevice", "busy", "format", "host", "other"]
  const INSTALL_REASONS: seq<string> := ["net", "hash", "write", "other"]
  const LOAD_REASONS: seq<string> := ["abi", "retired", "load"]
  const SLOW_PLACES: seq<string> := ["events", "frame-start", "pre-draw", "plugin-panels", "toolbar", "rail",
    "spectrum", "patch", "status", "dialogs", "polls", "saves", "render", "present", "recorder",
    "plugins-reload", "startup", "other"]
  const RECOVERED_WHAT: seq<string> := ["audio", "reopen", "srcthread", "vendorcall", "ringdrop", "dspexc",
    "cfgsave", "enumchild", "pluginapi", "webroute", "patchload", "sdrenum", "sdrlost", "audiolead",
    "viewport", "readerleak", "closeleak", "linkstranded", "streamrestart", "tunerretry", "latecall",
    "scanlimit", "usbstuck", "ratesdefault", "gainrefused", "ppmrefused", "iqfilegone", "cataloguebad",
    "catstop", "filekept", "takeheader", "sentinelgone", "displaywatch"]

  const EVENT_NAMES: seq<string> := ["scan_none", "radio_open", "radio_data", "radio_fail", "sound_ok",
    "sound_fail", "upd_check", "upd_dl", "upd_verify", "upd_run", "plug_cat", "plug_inst", "plug_load",
    "rec_fail", "slow", "recovered"]

  /** Holds neither separator of the codec. */
  predicate Unseparated(s: string) { ',' !in s && '=' !in s }

  predicate Word(s: string) { forall k :: 0 <= k < |s| ==> s[k] != ',' && s[k] != '=' && s[k] != '.' }

  ghost predicate Words(ws: seq<string>)
  {
    NoRepeats(ws) && forall i :: 0 <= i < |ws| ==> Word(ws[i])
  }

  lemma ShortListsAreWords()
    ensures Words(SOUND_REASONS) && Words(INSTALL_REASONS) && Words(LOAD_REASONS) && Words(HEALTH_SLOW_TIERS)
  {
  }

  lemma ReasonsAndHostsAreWords()
    ensures Words(RADIO_REASONS) && Words(SOUND_HOSTS)
  {
  }

  lemma DriversDiffer()
    ensures NoRepeats(DRIVERS)
  {
  }

  lemma DriversAreWords()
    ensures forall i :: 0 <= i < |DRIVERS| ==> Word(DRIVERS[i])
  {
  }

  lemma EventNamesDiffer()
    ensures NoRepeats(EVENT_NAMES)
  {
  }

  lemma EventNamesAreWords()
    ensures |EVENT_NAMES| == 16 && forall i :: 0 <= i < 16 ==> Word(EVENT_NAMES[i])
  {
  }

  lemma PlacesDiffer()
    ensures NoRepeats(SLOW_PLACES)
  {
  }

  lemma PlacesAreWords()
    ensures forall i :: 0 <= i < |SLOW_PLACES| ==> Word(SLOW_PLACES[i])
  {
  }

  lemma RecoveredDiffer()
    ensures NoRepeats(RECOVERED_WHAT)
  {
  }

  lemma RecoveredAreWords()
    ensures forall i :: 0 <= i < 11 ==> Word(RECOVERED_WHAT[i])
  {
  }

  lemma MoreRecoveredAreWords()
    ensures forall i :: 11 <= i < 22 ==> Word(RECOVERED_WHAT[i])
  {
  }

  lemma LastRecoveredAreWords()
    ensures |RECOVERED_WHAT| == 33 && forall i :: 22 <= i < 33 ==> Word(RECOVERED_WHAT[i])
  {
  }

  /** The words of every list are words. */
  lemma AllAreWords()
    ensures Words(DRIVERS) && Words(RADIO_REASONS) && Words(SOUND_HOSTS) && Words(SOUND_REASONS)
    ensures Words(INSTALL_REASONS) && Words(LOAD_REASONS) && Words(SLOW_PLACES) && Words(RECOVERED_WHAT)
    ensures Words(HEALTH_SLOW_TIERS) && Words(EVENT_NAMES)
  {
    hide Word, NoRepeats;
    hide DRIVERS, RADIO_REASONS, SOUND_HOSTS, SOUND_REASONS, INSTALL_REASONS, LOAD_REASONS, SLOW_PLACES, RECOVERED_WHAT;
    hide HEALTH_SLOW_TIERS, EVENT_NAMES;
    ShortListsAreWords();
    ReasonsAndHostsAreWords();
    DriversDiffer();
    DriversAreWords();
    EventNamesDiffer();
    EventNamesAreWords();
    PlacesDiffer();
    PlacesAreWords();
    RecoveredDiffer();
    RecoveredAreWords();
    MoreRecoveredAreWords();
    LastRecoveredAreWords();
  }
}
