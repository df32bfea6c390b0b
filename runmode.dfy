/**
 * The command line of a daemon built on the skeleton, and the sequence of
 * phases its `main` goes through: option scanning, the optional positional
 * start/stop/restart word, then daemonizing, the two lock checks, and
 * (except when stopping) initialization, the event loop and the
 * destructors.
 */
module RunModes {
  import opened Timers
  import opened Locking
  import opened CText

  /** One option as `getopt` hands it over for the option string
      "uvdfsc:t:h?". `OptBad` stands for -h, -?, an unknown option and an
      option missing its argument: all of them reach the usage branch. */
  datatype Opt = OptV | OptD | OptF | OptS | OptT(arg: string) | OptC(path: string) | OptU | OptBad

  /** What the command line selects. */
  datatype Settings = Settings(mode: RunMode, daemon: bool, timeout: nat, cfgfile: string, logUndefined: bool)

  /** The outcome of reading the command line: print the version and exit 0,
      print the usage text and exit 1, or go on with the settings. */
  datatype CmdLine = ShowVersion | Usage | Run(settings: Settings)

  /** The settings before any option: restart, as a daemon, a 60 second lock
      timeout, the build's default configuration file. */
  function Defaults(defaultCfg: string): Settings
  {
    Settings(Restart, true, 60, defaultCfg, false)
  }

  /** The effect of an option that does not end the scan. The -t argument
      goes through `strtoul` and is stored in a `uint32_t`. */
  function Apply(s: Settings, o: Opt): Settings
  {
    match o
    case OptD => s.(daemon := false)
    case OptF => s.(mode := Start)
    case OptS => s.(mode := Stop)
    case OptT(arg) => s.(timeout := Strtoul(arg) % UINT32_LIMIT)
    case OptC(path) => s.(cfgfile := path)
    case OptU => s.(logUndefined := true)
    case _ => s
  }

  predicate Ends(o: Opt)
  {
    o == OptV || o == OptBad
  }

  /** Reference definition of the option scan: options apply from left to
      right; -v and a bad option end it at once. */
  function Scan(s: Settings, opts: seq<Opt>): CmdLine
    decreases |opts|
  {
    if opts == [] then Run(s)
    else if opts[0] == OptV then ShowVersion
    else if opts[0] == OptBad then Usage
    else Scan(Apply(s, opts[0]), opts[1..])
  }

  function Lower(c: char): char
  {
    if 'A' <= c <= 'Z' then (c as int + 32) as char else c
  }

  /** `strcasecmp(a, b) == 0` in the C locale. */
  predicate SameIgnoringCase(a: string, b: string)
  {
    |a| == |b| && forall i :: 0 <= i < |a| ==> Lower(a[i]) == Lower(b[i])
  }

  /** The mode a positional word names, if any. */
  function WordMode(w: string): (m: Option<RunMode>)
    ensures m == Some(Start) <==> SameIgnoringCase(w, "start")
    ensures m == Some(Stop) <==> SameIgnoringCase(w, "stop")
    ensures m == Some(Restart) <==> SameIgnoringCase(w, "restart")
  {
    if SameIgnoringCase(w, "start") then Some(Start)
    else if SameIgnoringCase(w, "stop") then Some(Stop)
    else if SameIgnoringCase(w, "restart") then Some(Restart)
    else None
  }

  /** Reference definition of the whole command line: after the options, one
      word naming a mode overrides the mode, any other single word and more
      than one word are usage errors. */
  function Parse(defaultCfg: string, opts: seq<Opt>, words: seq<string>): CmdLine
  {
    match Scan(Defaults(defaultCfg), opts)
    case Run(s) =>
      if |words| == 1 then
        match WordMode(words[0])
        case Some(m) => Run(s.(mode := m))
        case None => Usage
      else if |words| != 0 then Usage
      else Run(s)
    case other => other
  }

  /** The option loop of `main` followed by the positional-word check. */
  method ParseCommandLine(defaultCfg: string, opts: seq<Opt>, words: seq<string>) returns (c: CmdLine)
    ensures c == Parse(defaultCfg, opts, words)
  {
    var s := Defaults(defaultCfg);
    var i := 0;
    while i < |opts|
      invariant 0 <= i <= |opts|
      invariant Scan(Defaults(defaultCfg), opts) == Scan(s, opts[i..])
    {
      assert opts[i..][1..] == opts[i + 1..];
      match opts[i] {
        case OptV => return ShowVersion;
        case OptBad => return Usage;
        case OptD => s := s.(daemon := false);
        case OptF => s := s.(mode := Start);
        case OptS => s := s.(mode := Stop);
        case OptT(arg) => s := s.(timeout := Strtoul(arg) % UINT32_LIMIT);
        case OptC(path) => s := s.(cfgfile := path);
        case OptU => s := s.(logUndefined := true);
      }
      i := i + 1;
    }
    if |words| == 1 {
      if SameIgnoringCase(words[0], "start") {
        s := s.(mode := Start);
      } else if SameIgnoringCase(words[0], "stop") {
        s := s.(mode := Stop);
      } else if SameIgnoringCase(words[0], "restart") {
        s := s.(mode := Restart);
      } else {
        return Usage;
      }
    } else if |words| != 0 {
      return Usage;
    }
    c := Run(s);
  }

  // ---------------------------------------------------------------------
  // Properties of the command line.

  predicate NoEnd(opts: seq<Opt>)
  {
    forall i :: 0 <= i < |opts| ==> !Ends(opts[i])
  }

  predicate IsModeFlag(o: Opt)
  {
    o == OptF || o == OptS
  }

  /** Options other than -f and -s leave the mode alone. */
  lemma {:induction false} ScanKeepsMode(s: Settings, opts: seq<Opt>)
    requires NoEnd(opts)
    requires forall i :: 0 <= i < |opts| ==> !IsModeFlag(opts[i])
    ensures Scan(s, opts).Run? && Scan(s, opts).settings.mode == s.mode
    decreases |opts|
  {
    if opts != [] {
      ScanKeepsMode(Apply(s, opts[0]), opts[1..]);
    }
  }

  /** Of several -f and -s options, the last one decides. */
  lemma {:induction false} ScanLastFlagWins(s: Settings, opts: seq<Opt>, i: nat)
    requires NoEnd(opts)
    requires i < |opts| && IsModeFlag(opts[i])
    requires forall j :: i < j < |opts| ==> !IsModeFlag(opts[j])
    ensures Scan(s, opts).Run?
    ensures Scan(s, opts).settings.mode == if opts[i] == OptF then Start else Stop
    decreases |opts|
  {
    if i == 0 {
      ScanKeepsMode(Apply(s, opts[0]), opts[1..]);
    } else {
      ScanLastFlagWins(Apply(s, opts[0]), opts[1..], i - 1);
    }
  }

  /** The scan goes on to the end exactly when it meets neither -v nor a bad
      option, and then it runs as a daemon exactly when there was no -d. */
  lemma {:induction false} ScanDaemon(s: Settings, opts: seq<Opt>)
    ensures Scan(s, opts).Run? <==> NoEnd(opts)
    ensures Scan(s, opts).Run? ==> (Scan(s, opts).settings.daemon <==> s.daemon && OptD !in opts)
    decreases |opts|
  {
    if opts != [] {
      ScanDaemon(Apply(s, opts[0]), opts[1..]);
      assert opts == [opts[0]] + opts[1..];
      if NoEnd(opts[1..]) && !Ends(opts[0]) {
        assert NoEnd(opts);
      }
    }
  }

  /** -v ends the scan with the version, whatever follows it. */
  lemma {:induction false} ScanVersion(s: Settings, opts: seq<Opt>, i: nat)
    requires i < |opts| && opts[i] == OptV
    requires forall j :: 0 <= j < i ==> !Ends(opts[j])
    ensures Scan(s, opts) == ShowVersion
    decreases |opts|
  {
    if i > 0 {
      ScanVersion(Apply(s, opts[0]), opts[1..], i - 1);
    }
  }

  /** With neither flags nor a word, the mode is restart. */
  lemma {:induction false} DefaultIsRestart(cfg: string, opts: seq<Opt>)
    requires NoEnd(opts)
    requires forall i :: 0 <= i < |opts| ==> !IsModeFlag(opts[i])
    ensures Parse(cfg, opts, []).Run? && Parse(cfg, opts, []).settings.mode == Restart
  {
    ScanKeepsMode(Defaults(cfg), opts);
  }

  /** Without a word, the last of -f (start) and -s (stop) decides. */
  lemma {:induction false} LastFlagDecides(cfg: string, opts: seq<Opt>, i: nat)
    requires NoEnd(opts)
    requires i < |opts| && IsModeFlag(opts[i])
    requires forall j :: i < j < |opts| ==> !IsModeFlag(opts[j])
    ensures Parse(cfg, opts, []).Run?
    ensures Parse(cfg, opts, []).settings.mode == if opts[i] == OptF then Start else Stop
  {
    ScanLastFlagWins(Defaults(cfg), opts, i);
  }

  /** A word naming a mode overrides every flag; a word naming none, and
      more than one word, are usage errors. */
  lemma {:induction false} WordOverridesFlags(cfg: string, opts: seq<Opt>, words: seq<string>)
    requires NoEnd(opts)
    ensures |words| == 1 && WordMode(words[0]).Some? ==>
              Parse(cfg, opts, words).Run? && Parse(cfg, opts, words).settings.mode == WordMode(words[0]).value
    ensures |words| == 1 && WordMode(words[0]).None? ==> Parse(cfg, opts, words) == Usage
    ensures |words| > 1 ==> Parse(cfg, opts, words) == Usage
  {
    ScanDaemon(Defaults(cfg), opts);
  }

  /** The daemon flag: set unless -d was given. */
  lemma {:induction false} DaemonUnlessDashD(cfg: string, opts: seq<Opt>, words: seq<string>)
    requires Parse(cfg, opts, words).Run?
    ensures Parse(cfg, opts, words).settings.daemon <==> OptD !in opts
  {
    ScanDaemon(Defaults(cfg), opts);
  }

  /** -v wins over everything after it, options and words alike. */
  lemma {:induction false} VersionFirst(cfg: string, opts: seq<Opt>, words: seq<string>, i: nat)
    requires i < |opts| && opts[i] == OptV
    requires forall j :: 0 <= j < i ==> !Ends(opts[j])
    ensures Parse(cfg, opts, words) == ShowVersion
  {
    ScanVersion(Defaults(cfg), opts, i);
  }

  /** The word is matched without regard to case. */
  lemma {:induction false} WordExamples()
    ensures WordMode("STOP") == Some(Stop) && WordMode("Restart") == Some(Restart)
    ensures WordMode("halt") == None
  {
    assert SameIgnoringCase("STOP", "stop");
    assert SameIgnoringCase("Restart", "restart");
    assert Lower("halt"[0]) != Lower("stop"[0]);
  }

  // ---------------------------------------------------------------------
  // The phases of `main`.

  /** The phases of `main` that the model distinguishes. Daemonizing
      installs the signal handlers as well. */
  datatype Step = Daemonize | SignalHandlers | CheckOldLocks | WdLock | RemoveOldWdLock
                | Initialize | MainLoop | Destruct

  /** What the external steps report: configuration loaded, user and group
      switched (`changeugid` exits with status 1 when a named user or group
      does not exist), working directory entered, the old-style lock check
      and the lock protocol passed, initialization succeeded. */
  datatype Outcomes = Outcomes(cfgOk: bool, ugidOk: bool, chdirOk: bool, oldLocksOk: bool,
                               wdlockOk: bool, initOk: bool)

  /** Every step before the lock checks passed. */
  predicate Prepared(o: Outcomes)
  {
    o.cfgOk && o.ugidOk && o.chdirOk
  }

  /** How the process is started: daemonized with signal handlers, in the
      foreground with signal handlers, or (to stop another instance) with
      neither. */
  function StartSteps(s: Settings): seq<Step>
  {
    if s.mode != Stop && s.daemon then [Daemonize, SignalHandlers]
    else if s.mode != Stop then [SignalHandlers]
    else []
  }

  /** The exit code and the phases `main` goes through. Every path after the
      lock checks that is not a stop initializes and then runs the
      destructors, even when initialization failed, and exits 0. */
  function Launch(c: CmdLine, o: Outcomes): (r: (int, seq<Step>))
    ensures r.0 == 0 || r.0 == 1
    ensures r.0 == 1 <==> c.Usage? || (c.Run? && !(Prepared(o) && o.oldLocksOk && o.wdlockOk))
    ensures c.Run? && Prepared(o) ==> CheckOldLocks in r.1
    ensures c.Run? && Prepared(o) && o.oldLocksOk ==> WdLock in r.1
    ensures !c.Run? || !Prepared(o) ==> r.1 == []
  {
    match c
    case ShowVersion => (0, [])
    case Usage => (1, [])
    case Run(s) =>
      if !Prepared(o) then (1, [])
      else
        var pre := StartSteps(s) + [CheckOldLocks];
        if !o.oldLocksOk then (1, pre)
        else if !o.wdlockOk then (1, pre + [WdLock])
        else
          var locked := pre + [WdLock, RemoveOldWdLock];
          if s.mode == Stop then (0, locked)
          else if o.initOk then (0, locked + [Initialize, MainLoop, Destruct])
          else (0, locked + [Initialize, Destruct])
  }

  /** Stopping another instance takes and releases the locks only: it never
      initializes, runs the loop or the destructors, and needs no signal
      handlers or daemon. */
  lemma {:induction false} StopOnlyLocks(s: Settings, o: Outcomes)
    requires s.mode == Stop
    ensures Initialize !in Launch(Run(s), o).1 && MainLoop !in Launch(Run(s), o).1
    ensures Destruct !in Launch(Run(s), o).1
    ensures Daemonize !in Launch(Run(s), o).1 && SignalHandlers !in Launch(Run(s), o).1
    ensures Prepared(o) && o.oldLocksOk && o.wdlockOk ==>
              Launch(Run(s), o) == (0, [CheckOldLocks, WdLock, RemoveOldWdLock])
  {
    assert StartSteps(s) + [CheckOldLocks] + [WdLock, RemoveOldWdLock] == [CheckOldLocks, WdLock, RemoveOldWdLock];
  }

  /** A daemon is made exactly when the mode is not stop and -d was not
      given (once configuration, user and working directory are in place). */
  lemma {:induction false} DaemonIff(s: Settings, o: Outcomes)
    requires Prepared(o)
    ensures Daemonize in Launch(Run(s), o).1 <==> s.mode != Stop && s.daemon
    ensures SignalHandlers in Launch(Run(s), o).1 <==> s.mode != Stop
  {
  }

  /** The destructors run exactly when initialization was attempted, and
      the loop runs exactly when it succeeded; both lock checks come first. */
  lemma {:induction false} DestructIffInitialized(c: CmdLine, o: Outcomes)
    ensures Destruct in Launch(c, o).1 <==> Initialize in Launch(c, o).1
    ensures MainLoop in Launch(c, o).1 <==> Initialize in Launch(c, o).1 && o.initOk
    ensures Initialize in Launch(c, o).1 ==>
              c.Run? && c.settings.mode != Stop && o.oldLocksOk && o.wdlockOk && Launch(c, o).0 == 0
  {
  }
}
