/** One run of plex-update.py's `main`, from the command line to the written
    configuration. The catalog served at the configured URL, the effective uid and
    the script's directory are parameters; downloading, running the installer and
    writing the file are results. */
module Run {
  import opened Base
  import opened Ini
  import opened Selection
  import opened Installer
  import opened Update

  /** How the run ends: normally (status 0), through `myhelp` (status 1), or with
      an uncaught exception (status 1). */
  datatype Exit = Finished | Help(message: string) | Crashed(error: Exception)
  {
    function Status(): (code: int)
      ensures code == 0 <==> Finished?
      ensures !Finished? ==> code == 1
    {
      if Finished? then 0 else 1
    }
  }

  /** What a run did: how it ended, the catalog URL it fetched, the installs it
      ran (in order), the configuration object at the end, and the configuration
      written to info.ini, if it got that far. */
  datatype RunResult = RunResult(
    exit: Exit,
    fetched: Option<string>,
    actions: seq<InstallAction>,
    config: Ini,
    written: Option<Ini>)

  /** The `install_plex` calls for the requested installs, in order. */
  function Perform(pathname: string, euid: int, reqs: seq<Request>): seq<InstallAction>
  {
    seq(|reqs|, i requires 0 <= i < |reqs| => InstallPlex(pathname, euid, reqs[i]))
  }

  /** `main` with command line `argv` and info.ini holding `ini`; `catalog` is the
      decoded document served at the configured URL. */
  function Run(argv: seq<string>, ini: Ini, catalog: Catalog, euid: int, pathname: string): RunResult
  {
    match ParseChoice(argv)
    case None => RunResult(Help(HelpMessage), None, [], ini, None)
    case Some(choice) =>
      match Get(ini, DefaultSection, CatalogUrlOption)
      case Err(e) => RunResult(Crashed(e), None, [], ini, None)
      case Ok(url) =>
        match Select(catalog)
        case Err(e) => RunResult(Crashed(e), Some(url), [], ini, None)
        case Ok(sel) =>
          var o := Step(ini, sel, catalog.version, choice);
          var actions := Perform(pathname, euid, o.installs);
          match o.failure
          case Some(e) => RunResult(Crashed(e), Some(url), actions, o.ini, None)
          case None => RunResult(Finished, Some(url), actions, o.ini, Some(o.ini))
  }

  /** A missing argument or one other than amd64/armhf ends in `myhelp`, before
      anything is fetched, installed or written; any other run goes on. */
  lemma RunRejectsBadArgument(argv: seq<string>, ini: Ini, catalog: Catalog, euid: int, pathname: string)
    ensures var r := Run(argv, ini, catalog, euid, pathname);
      (r.exit == Help(HelpMessage)) <==> !(|argv| >= 2 && (argv[1] == "amd64" || argv[1] == "armhf"))
    ensures var r := Run(argv, ini, catalog, euid, pathname);
      r.exit.Help? ==> r.fetched == None && r.actions == [] && r.config == ini && r.written == None
  {
  }

  /** The run fetches the catalog URL stored in DEFAULT, and only after the
      argument check passed. */
  lemma RunFetchesConfiguredCatalog(argv: seq<string>, ini: Ini, catalog: Catalog, euid: int, pathname: string)
    ensures var r := Run(argv, ini, catalog, euid, pathname);
      r.fetched.Some? <==> ParseChoice(argv).Some? && Get(ini, DefaultSection, CatalogUrlOption).Ok?
    ensures var r := Run(argv, ini, catalog, euid, pathname);
      r.fetched.Some? ==> r.fetched.value == ini.defaults[CatalogUrlOption]
  {
  }

  /** A run installs at most once; when it does, it downloads the chosen
      platform's build at its fixed catalog position (1 for amd64, 3 for armhf),
      saves it under the catalog version, and only because that platform's stored
      checksum differed. Conversely, a run that gets as far as the chosen
      platform's block with a differing stored checksum does install. */
  lemma RunInstallsChosenBuild(argv: seq<string>, ini: Ini, catalog: Catalog, euid: int, pathname: string)
    ensures var r := Run(argv, ini, catalog, euid, pathname);
      |r.actions| <= 1
    ensures var r := Run(argv, ini, catalog, euid, pathname);
      r.actions != [] ==>
        && ParseChoice(argv).Some?
        && |catalog.releases| >= 4
        && var choice := ParseChoice(argv).value;
        && var rel := catalog.releases[ReleaseIndex(choice)];
        && Stored(ini, choice).Ok? && Stored(ini, choice).value != rel.checksum
        && r.actions == [InstallPlex(pathname, euid, Request(rel.url, catalog.version, choice))]
    ensures var r := Run(argv, ini, catalog, euid, pathname);
      (&& ParseChoice(argv).Some?
       && Get(ini, DefaultSection, CatalogUrlOption).Ok?
       && |catalog.releases| >= 4
       && var choice := ParseChoice(argv).value;
       && Reached(ini, choice)
       && Stored(ini, choice).Ok? && Stored(ini, choice).value != catalog.releases[ReleaseIndex(choice)].checksum)
      ==> r.actions != []
  {
    if ParseChoice(argv).Some? && Get(ini, DefaultSection, CatalogUrlOption).Ok? && Select(catalog).Ok? {
      var choice := ParseChoice(argv).value;
      var sel := Select(catalog).value;
      StepInstallDecision(ini, sel, catalog.version, choice);
      assert sel.For(choice) == catalog.releases[ReleaseIndex(choice)];
    }
  }

  /** info.ini is written exactly when the run finishes normally, and it holds the
      updated configuration. What is written does not depend on the installs: the
      installer's outcome is never consulted. */
  lemma RunPersistence(argv: seq<string>, ini: Ini, catalog: Catalog, e1: int, p1: string, e2: int, p2: string)
    ensures var r := Run(argv, ini, catalog, e1, p1);
      (r.written.Some? <==> r.exit == Finished) && (r.written.Some? ==> r.written.value == r.config)
    ensures Run(argv, ini, catalog, e1, p1).written == Run(argv, ini, catalog, e2, p2).written
  {
  }

  /** A second run on what the first one wrote, with the same catalog, installs
      nothing and writes the same configuration again. */
  lemma RunIdempotent(argv: seq<string>, ini: Ini, catalog: Catalog, euid: int, pathname: string)
    requires Run(argv, ini, catalog, euid, pathname).written.Some?
    ensures var r := Run(argv, ini, catalog, euid, pathname);
      var w := r.written.value;
      Run(argv, w, catalog, euid, pathname) == RunResult(Finished, r.fetched, [], w, Some(w))
  {
    var choice := ParseChoice(argv).value;
    var sel := Select(catalog).value;
    StepFrame(ini, sel, catalog.version, choice);
    StepIdempotent(ini, sel, catalog.version, choice);
  }

  /** `main` on the configuration object, which it updates in place. */
  method RunMain(argv: seq<string>, config: Config, catalog: Catalog, euid: int, pathname: string)
    returns (result: RunResult)
    modifies config
    ensures result == Run(argv, old(config.State()), catalog, euid, pathname)
    ensures config.State() == result.config
  {
    var choice := ParseChoice(argv);
    if choice.None? {
      return RunResult(Help(HelpMessage), None, [], config.State(), None);
    }
    var url := config.Lookup(DefaultSection, CatalogUrlOption);
    if url.Err? {
      return RunResult(Crashed(url.error), None, [], config.State(), None);
    }
    var sel := Select(catalog);
    if sel.Err? {
      return RunResult(Crashed(sel.error), Some(url.value), [], config.State(), None);
    }
    var installs, failure := UpdateStep(config, sel.value, catalog.version, choice.value);
    var actions := Perform(pathname, euid, installs);
    if failure.Some? {
      return RunResult(Crashed(failure.value), Some(url.value), actions, config.State(), None);
    }
    result := RunResult(Finished, Some(url.value), actions, config.State(), Some(config.State()));
  }
}
