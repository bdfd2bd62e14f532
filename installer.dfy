/** The two strings `install_plex` builds: the local package path and the
    installer command line (plex-update.py, install_plex). */
module Installer {
  import opened Base
  import opened Selection

  /** A call `install_plex(deb_url, plex_version, choice)`. */
  datatype Request = Request(url: string, version: string, choice: Platform)

  /** What that call does: download `url` to `debFile`, run `command`, then
      remove `debFile` if it exists. */
  datatype InstallAction = InstallAction(url: string, debFile: string, command: string)

  const ArtifactPrefix := "/plexmediaserver_"
  const SudoPrefix := "sudo "
  const CommandHead := "gdebi \""
  const CommandTail := "\" --n"

  /** The package file the download is saved to, in the script's directory. */
  function DebPath(pathname: string, version: string, choice: Platform): string
  {
    pathname + ArtifactPrefix + version + "_" + Name(choice) + ".deb"
  }

  /** Reads version and platform back out of a package file name in `pathname`. */
  function ParseDebPath(pathname: string, file: string): Option<(string, Platform)>
  {
    var head := pathname + ArtifactPrefix;
    if |file| < |head| + 10 || file[..|head|] != head then None
    else
      var version := file[|head|..|file| - 10];
      var tail := file[|file| - 10..];
      if tail == "_" + Name(Amd64) + ".deb" then Some((version, Amd64))
      else if tail == "_" + Name(Armhf) + ".deb" then Some((version, Armhf))
      else None
  }

  /** The package path is `pathname/plexmediaserver_<version>_<choice>.deb`, from
      which version and platform can be read back. */
  lemma DebPathRoundTrip(pathname: string, version: string, choice: Platform)
    ensures ParseDebPath(pathname, DebPath(pathname, version, choice)) == Some((version, choice))
  {
    var file := DebPath(pathname, version, choice);
    var head := pathname + ArtifactPrefix;
    var tail := "_" + Name(choice) + ".deb";
    assert file == head + version + tail;
    assert |tail| == 10;
    assert file[..|head|] == head;
    assert file[|head|..|file| - 10] == version;
    assert file[|file| - 10..] == tail;
    if choice == Armhf {
      assert tail[2] != ("_" + Name(Amd64) + ".deb")[2];
    }
  }

  /** Different versions or platforms never share a package file. */
  lemma DebPathInjective(pathname: string, v1: string, c1: Platform, v2: string, c2: Platform)
    requires DebPath(pathname, v1, c1) == DebPath(pathname, v2, c2)
    ensures v1 == v2 && c1 == c2
  {
    DebPathRoundTrip(pathname, v1, c1);
    DebPathRoundTrip(pathname, v2, c2);
  }

  /** `gdebi "<debFile>" --n`, run through `sudo` when the effective uid is not 0. */
  function InstallCommand(debFile: string, euid: int): string
  {
    var command := CommandHead + debFile + CommandTail;
    if euid != 0 then SudoPrefix + command else command
  }

  /** The command asks for root through sudo. */
  predicate Escalates(command: string)
  {
    |command| >= |SudoPrefix| && command[..|SudoPrefix|] == SudoPrefix
  }

  /** The package file a gdebi command line installs, with or without sudo. */
  function CommandTarget(command: string): Option<string>
  {
    var body := if Escalates(command) then command[|SudoPrefix|..] else command;
    if |body| >= |CommandHead| + |CommandTail|
       && body[..|CommandHead|] == CommandHead
       && body[|body| - |CommandTail|..] == CommandTail
    then Some(body[|CommandHead|..|body| - |CommandTail|])
    else None
  }

  /** The command carries the sudo prefix exactly when the effective uid is not
      0, and it installs exactly the given file. */
  lemma InstallCommandMeaning(debFile: string, euid: int)
    ensures Escalates(InstallCommand(debFile, euid)) <==> euid != 0
    ensures CommandTarget(InstallCommand(debFile, euid)) == Some(debFile)
  {
    var body := CommandHead + debFile + CommandTail;
    var command := InstallCommand(debFile, euid);
    assert body[..|CommandHead|] == CommandHead;
    assert body[|CommandHead|..|body| - |CommandTail|] == debFile;
    assert body[|body| - |CommandTail|..] == CommandTail;
    if euid != 0 {
      assert command[..|SudoPrefix|] == SudoPrefix;
      assert command[|SudoPrefix|..] == body;
    } else {
      assert command[..|SudoPrefix|] != SudoPrefix by {
        assert command[0] == 'g';
      }
    }
  }

  /** `install_plex(url, version, choice)` run from `pathname` with effective uid
      `euid`: it downloads from the release url into the file named after version
      and platform, and runs gdebi on that very file, through sudo exactly when
      not root. */
  function InstallPlex(pathname: string, euid: int, req: Request): (a: InstallAction)
    ensures a.url == req.url
    ensures ParseDebPath(pathname, a.debFile) == Some((req.version, req.choice))
    ensures CommandTarget(a.command) == Some(a.debFile)
    ensures Escalates(a.command) <==> euid != 0
  {
    var debFile := DebPath(pathname, req.version, req.choice);
    DebPathRoundTrip(pathname, req.version, req.choice);
    InstallCommandMeaning(debFile, euid);
    InstallAction(req.url, debFile, InstallCommand(debFile, euid))
  }
}
