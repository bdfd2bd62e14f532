/** The update decision of plex-update.py's `main`: compare each platform's
    stored checksum with the catalog's, refresh the records that differ, install
    the chosen platform's build when its record was refreshed, and write the
    configuration back. */
module Update {
  import opened Base
  import opened Ini
  import opened Selection
  import opened Installer

  const ChecksumOption := "checksum"
  const UrlOption := "url"
  /** `plexJSONurl`, as ConfigParser stores option names (lower-cased). */
  const CatalogUrlOption := "plexjsonurl"

  /** `config[Name(p)]['checksum']`: the checksum stored for platform p. */
  function Stored(ini: Ini, p: Platform): Result<string>
  {
    Get(ini, Name(p), ChecksumOption)
  }

  /** b differs from a at most in the checksum and url of the sections in `names`. */
  predicate OnlyRecordsDiffer(a: Ini, b: Ini, names: set<string>)
  {
    && b.defaults == a.defaults
    && b.sections.Keys == a.sections.Keys
    && (forall s :: s in a.sections && s !in names ==> b.sections[s] == a.sections[s])
    && (forall s :: s in a.sections && s in names ==>
          b.sections[s] - {ChecksumOption, UrlOption} == a.sections[s] - {ChecksumOption, UrlOption})
  }

  /** A platform's configuration after its refresh block, and whether the block fired. */
  datatype Refreshed = Refreshed(ini: Ini, changed: bool)

  /** One refresh block (lines 61-63 for amd64, 66-68 for armhf): when the stored
      checksum differs from the catalog's, store the catalog's checksum and url. */
  function RefreshRecord(ini: Ini, p: Platform, rel: Release): (r: Result<Refreshed>)
    ensures Stored(ini, p).Err? ==> r == Err(Stored(ini, p).error)
    ensures Stored(ini, p).Ok? ==> r.Ok? && (r.value.changed <==> Stored(ini, p).value != rel.checksum)
    ensures r.Ok? && !r.value.changed ==> r.value.ini == ini
    ensures r.Ok? && r.value.changed ==>
      Stored(r.value.ini, p) == Ok(rel.checksum) && Get(r.value.ini, Name(p), UrlOption) == Ok(rel.url)
    ensures r.Ok? && r.value.changed ==>
      && Name(p) in r.value.ini.sections
      && ChecksumOption in r.value.ini.sections[Name(p)]
      && r.value.ini.sections[Name(p)][ChecksumOption] == rel.checksum
      && UrlOption in r.value.ini.sections[Name(p)]
      && r.value.ini.sections[Name(p)][UrlOption] == rel.url
    ensures r.Ok? ==> Name(p) in ini.sections && OnlyRecordsDiffer(ini, r.value.ini, {Name(p)})
  {
    match Get(ini, Name(p), ChecksumOption)
    case Err(e) => Err(e)
    case Ok(stored) =>
      if stored == rel.checksum then Ok(Refreshed(ini, false))
      else
        var withChecksum := Set(ini, Name(p), ChecksumOption, rel.checksum);
        Ok(Refreshed(Set(withChecksum, Name(p), UrlOption, rel.url), true))
  }

  /** The install call a refresh block makes: only for the chosen platform, only
      when the block fired. */
  function InstallFor(changed: bool, p: Platform, choice: Platform, sel: Selected, version: string): seq<Request>
  {
    if changed && choice == p then [Request(sel.For(p).url, version, p)] else []
  }

  /** The configuration after lines 61-70, the installs requested on the way (in
      order), and the exception that stopped the step, if any. */
  datatype StepOutcome = StepOutcome(ini: Ini, installs: seq<Request>, failure: Option<Exception>)

  /** Lines 61-70: the amd64 block, then the armhf block. A KeyError in the armhf
      block comes after the amd64 block has refreshed its record and installed. */
  function Step(ini: Ini, sel: Selected, version: string, choice: Platform): StepOutcome
  {
    match RefreshRecord(ini, Amd64, sel.amd64)
    case Err(e) => StepOutcome(ini, [], Some(e))
    case Ok(a) =>
      var first := InstallFor(a.changed, Amd64, choice, sel, version);
      match RefreshRecord(a.ini, Armhf, sel.armhf)
      case Err(e) => StepOutcome(a.ini, first, Some(e))
      case Ok(b) => StepOutcome(b.ini, first + InstallFor(b.changed, Armhf, choice, sel, version), None)
  }

  /** The step reaches platform p's block: armhf's block runs only after the
      amd64 block has not raised. */
  predicate Reached(ini: Ini, p: Platform)
  {
    p == Armhf ==> Stored(ini, Amd64).Ok?
  }

  /** Lookups outside the changed sections give what they gave before. */
  lemma GetOutside(a: Ini, b: Ini, names: set<string>, section: string, option: string)
    requires OnlyRecordsDiffer(a, b, names)
    requires section !in names
    ensures Get(b, section, option) == Get(a, section, option)
  {
  }

  /** The armhf block sees the armhf record the step started with. */
  lemma AmdBlockKeepsArmRecord(ini: Ini, sel: Selected)
    requires RefreshRecord(ini, Amd64, sel.amd64).Ok?
    ensures Stored(RefreshRecord(ini, Amd64, sel.amd64).value.ini, Armhf) == Stored(ini, Armhf)
  {
    GetOutside(ini, RefreshRecord(ini, Amd64, sel.amd64).value.ini, {Name(Amd64)}, Name(Armhf), ChecksumOption);
  }

  /** The amd64 record the armhf block leaves is the one it was given. */
  lemma ArmBlockKeepsAmdRecord(a: Ini, sel: Selected, option: string)
    requires RefreshRecord(a, Armhf, sel.armhf).Ok?
    ensures Get(RefreshRecord(a, Armhf, sel.armhf).value.ini, Name(Amd64), option) == Get(a, Name(Amd64), option)
  {
    GetOutside(a, RefreshRecord(a, Armhf, sel.armhf).value.ini, {Name(Armhf)}, Name(Amd64), option);
  }

  /** The step raises KeyError exactly when a platform's section or checksum is
      missing; a failure in the amd64 block leaves everything as it was. */
  lemma StepFailure(ini: Ini, sel: Selected, version: string, choice: Platform)
    ensures var o := Step(ini, sel, version, choice);
      && (o.failure.None? <==> Stored(ini, Amd64).Ok? && Stored(ini, Armhf).Ok?)
      && (Stored(ini, Amd64).Err? ==> o == StepOutcome(ini, [], Some(Stored(ini, Amd64).error)))
      && (Stored(ini, Amd64).Ok? && Stored(ini, Armhf).Err? ==> o.failure == Some(Stored(ini, Armhf).error))
  {
    if Stored(ini, Amd64).Ok? {
      AmdBlockKeepsArmRecord(ini, sel);
    }
  }

  /** A platform whose stored checksum equals the catalog's keeps its whole
      record, and nothing is installed for it. */
  lemma StepKeepsUnchangedRecord(ini: Ini, sel: Selected, version: string, choice: Platform, p: Platform)
    requires Stored(ini, p) == Ok(sel.For(p).checksum)
    ensures var o := Step(ini, sel, version, choice);
      && Name(p) in ini.sections && Name(p) in o.ini.sections
      && o.ini.sections[Name(p)] == ini.sections[Name(p)]
      && forall i :: 0 <= i < |o.installs| ==> o.installs[i].choice != p
  {
    var amd := RefreshRecord(ini, Amd64, sel.amd64);
    if amd.Ok? {
      var a := amd.value.ini;
      AmdBlockKeepsArmRecord(ini, sel);
      var arm := RefreshRecord(a, Armhf, sel.armhf);
      if p == Amd64 {
        // the amd64 block does not fire, and the armhf block keeps other sections
        assert a == ini;
        if arm.Ok? {
          assert Name(Amd64) !in {Name(Armhf)};
          assert arm.value.ini.sections[Name(Amd64)] == a.sections[Name(Amd64)];
        }
      } else {
        // the armhf block does not fire, and the amd64 block kept the armhf section
        assert arm == Ok(Refreshed(a, false));
        assert Name(Armhf) !in {Name(Amd64)};
        assert a.sections[Name(Armhf)] == ini.sections[Name(Armhf)];
      }
    }
  }

  /** A platform whose block runs and whose stored checksum differs from the
      catalog's ends with the catalog's checksum and url. */
  lemma StepRefreshesChangedRecord(ini: Ini, sel: Selected, version: string, choice: Platform, p: Platform)
    requires Reached(ini, p) && Stored(ini, p).Ok? && Stored(ini, p).value != sel.For(p).checksum
    ensures var o := Step(ini, sel, version, choice);
      Stored(o.ini, p) == Ok(sel.For(p).checksum) && Get(o.ini, Name(p), UrlOption) == Ok(sel.For(p).url)
    ensures var o := Step(ini, sel, version, choice);
      && Name(p) in o.ini.sections
      && ChecksumOption in o.ini.sections[Name(p)]
      && o.ini.sections[Name(p)][ChecksumOption] == sel.For(p).checksum
      && UrlOption in o.ini.sections[Name(p)]
      && o.ini.sections[Name(p)][UrlOption] == sel.For(p).url
  {
    var amd := RefreshRecord(ini, Amd64, sel.amd64);
    AmdBlockKeepsArmRecord(ini, sel);
    var arm := RefreshRecord(amd.value.ini, Armhf, sel.armhf);
    if p == Amd64 && arm.Ok? {
      ArmBlockKeepsAmdRecord(amd.value.ini, sel, ChecksumOption);
      ArmBlockKeepsAmdRecord(amd.value.ini, sel, UrlOption);
    }
  }

  /** Both records are refreshed the same way whichever platform was chosen. */
  lemma StepRecordsIgnoreChoice(ini: Ini, sel: Selected, version: string, c1: Platform, c2: Platform)
    ensures Step(ini, sel, version, c1).ini == Step(ini, sel, version, c2).ini
    ensures Step(ini, sel, version, c1).failure == Step(ini, sel, version, c2).failure
  {
  }

  /** At most one install per run, and it is for the chosen platform, with its
      catalog url and the catalog version; it happens exactly when the chosen
      platform's block runs and finds a different checksum. */
  lemma StepInstallDecision(ini: Ini, sel: Selected, version: string, choice: Platform)
    ensures var o := Step(ini, sel, version, choice);
      && |o.installs| <= 1
      && (o.installs != [] <==>
            Reached(ini, choice) && Stored(ini, choice).Ok? && Stored(ini, choice).value != sel.For(choice).checksum)
      && (o.installs != [] ==> o.installs == [Request(sel.For(choice).url, version, choice)])
  {
    var amd := RefreshRecord(ini, Amd64, sel.amd64);
    if amd.Ok? {
      AmdBlockKeepsArmRecord(ini, sel);
    }
  }

  /** Changes confined to the records of `names1` and then of `names2` are
      confined to the records of both. */
  lemma OnlyRecordsDifferCompose(a: Ini, b: Ini, c: Ini, names1: set<string>, names2: set<string>)
    requires OnlyRecordsDiffer(a, b, names1) && OnlyRecordsDiffer(b, c, names2)
    ensures OnlyRecordsDiffer(a, c, names1 + names2)
  {
    forall s | s in a.sections && s in names1 + names2
      ensures c.sections[s] - {ChecksumOption, UrlOption} == a.sections[s] - {ChecksumOption, UrlOption}
    {
      if s !in names2 {
        assert c.sections[s] == b.sections[s];
      } else if s !in names1 {
        assert b.sections[s] == a.sections[s];
      } else {
        assert b.sections[s] - {ChecksumOption, UrlOption} == a.sections[s] - {ChecksumOption, UrlOption};
      }
    }
  }

  /** Nothing but the checksum and url of the two platform sections changes. */
  lemma StepFrame(ini: Ini, sel: Selected, version: string, choice: Platform)
    ensures OnlyRecordsDiffer(ini, Step(ini, sel, version, choice).ini, {Name(Amd64), Name(Armhf)})
  {
    var amd := RefreshRecord(ini, Amd64, sel.amd64);
    if amd.Ok? {
      var arm := RefreshRecord(amd.value.ini, Armhf, sel.armhf);
      if arm.Ok? {
        OnlyRecordsDifferCompose(ini, amd.value.ini, arm.value.ini, {Name(Amd64)}, {Name(Armhf)});
        assert {Name(Amd64)} + {Name(Armhf)} == {Name(Amd64), Name(Armhf)};
      }
    }
  }

  /** Running the step again on the configuration it left in memory, with the
      same catalog, changes nothing and installs nothing (and raises again
      whatever it raised the first time). After a KeyError nothing is written, so
      a rerun of the script starts from the old info.ini instead; only
      `RunIdempotent`, which requires that the first run wrote, speaks for a
      rerun of the script. */
  lemma StepIdempotent(ini: Ini, sel: Selected, version: string, choice: Platform)
    ensures var o := Step(ini, sel, version, choice);
      Step(o.ini, sel, version, choice) == StepOutcome(o.ini, [], o.failure)
  {
    var amd := RefreshRecord(ini, Amd64, sel.amd64);
    if amd.Ok? {
      // after the amd64 block its stored checksum is the catalog's; armhf's is untouched
      var a := amd.value.ini;
      AmdBlockKeepsArmRecord(ini, sel);
      assert RefreshRecord(a, Amd64, sel.amd64) == Ok(Refreshed(a, false));
      AmdBlockKeepsArmRecord(a, sel);
      var arm := RefreshRecord(a, Armhf, sel.armhf);
      if arm.Ok? {
        // the armhf block leaves the amd64 record as the amd64 block left it
        var b := arm.value.ini;
        ArmBlockKeepsAmdRecord(a, sel, ChecksumOption);
        assert RefreshRecord(b, Amd64, sel.amd64) == Ok(Refreshed(b, false));
        AmdBlockKeepsArmRecord(b, sel);
        assert RefreshRecord(b, Armhf, sel.armhf) == Ok(Refreshed(b, false));
      }
    }
  }

  /** One refresh block on the configuration object. */
  method RefreshPlatform(config: Config, p: Platform, rel: Release) returns (changed: bool, failure: Option<Exception>)
    modifies config
    ensures var r := RefreshRecord(old(config.State()), p, rel);
      if r.Ok? then config.State() == r.value.ini && changed == r.value.changed && failure == None
      else config.State() == old(config.State()) && !changed && failure == Some(r.error)
  {
    var stored := config.Lookup(Name(p), ChecksumOption);
    if stored.Err? {
      return false, Some(stored.error);
    }
    changed, failure := stored.value != rel.checksum, None;
    if changed {
      config.Assign(Name(p), ChecksumOption, rel.checksum);
      config.Assign(Name(p), UrlOption, rel.url);
    }
  }

  /** Lines 61-70 on the configuration object, updated in place. */
  method UpdateStep(config: Config, sel: Selected, version: string, choice: Platform)
    returns (installs: seq<Request>, failure: Option<Exception>)
    modifies config
    ensures var o := Step(old(config.State()), sel, version, choice);
      config.State() == o.ini && installs == o.installs && failure == o.failure
  {
    ghost var start := config.State();
    installs := [];
    var changed;
    changed, failure := RefreshPlatform(config, Amd64, sel.amd64);
    if failure.Some? {
      return;
    }
    ghost var a := RefreshRecord(start, Amd64, sel.amd64).value;
    assert config.State() == a.ini && changed == a.changed;
    if changed && choice == Amd64 {
      installs := installs + [Request(sel.amd64.url, version, Amd64)];
    }
    assert installs == InstallFor(a.changed, Amd64, choice, sel, version);
    changed, failure := RefreshPlatform(config, Armhf, sel.armhf);
    if failure.Some? {
      return;
    }
    if changed && choice == Armhf {
      installs := installs + [Request(sel.armhf.url, version, Armhf)];
    }
  }
}
