/** The platform argument and the fixed positions of the two builds in the
    parsed Plex catalog (plex-update.py, main). */
module Selection {
  import opened Base

  /** The two platforms the script knows. */
  datatype Platform = Amd64 | Armhf

  /** The argument spelling of a platform; it is also the name of its INI section
      and the suffix of its package file. */
  function Name(p: Platform): string
  {
    match p
    case Amd64 => "amd64"
    case Armhf => "armhf"
  }

  /** What `myhelp` prints before it exits with status 1. */
  const HelpMessage := "Provide a Parameter: 'amd64' or 'armhf'"

  /** The argument check: `argv` is the whole command line, argv[0] being the
      script. The run goes on exactly when argv[1] exists and names a platform;
      further arguments are ignored. None means `myhelp` ends the run. */
  function ParseChoice(argv: seq<string>): (r: Option<Platform>)
    ensures r.Some? <==> |argv| >= 2 && (argv[1] == "amd64" || argv[1] == "armhf")
    ensures r.Some? ==> Name(r.value) == argv[1]
  {
    if |argv| < 2 then None
    else if argv[1] == "amd64" then Some(Amd64)
    else if argv[1] == "armhf" then Some(Armhf)
    else None
  }

  /** One entry of the catalog's `releases` list, reduced to the two fields read. */
  datatype Release = Release(url: string, checksum: string)

  /** The decoded catalog: its top-level version and its list of releases. */
  datatype Catalog = Catalog(version: string, releases: seq<Release>)

  /** The fixed position of each platform's build in `releases`. */
  function ReleaseIndex(p: Platform): nat
  {
    match p
    case Amd64 => 1
    case Armhf => 3
  }

  /** The two builds the script reads from the catalog. */
  datatype Selected = Selected(amd64: Release, armhf: Release)
  {
    function For(p: Platform): Release
    {
      match p
      case Amd64 => amd64
      case Armhf => armhf
    }
  }

  /** Reads releases[1] (amd64) and then releases[3] (armhf); the first position
      that does not exist raises IndexError. */
  function Select(c: Catalog): (r: Result<Selected>)
    ensures r.Ok? <==> |c.releases| >= 4
    ensures r.Ok? ==> forall p :: r.value.For(p) == c.releases[ReleaseIndex(p)]
    ensures r.Err? ==> r.error == IndexError(if |c.releases| <= ReleaseIndex(Amd64) then ReleaseIndex(Amd64) else ReleaseIndex(Armhf))
  {
    if |c.releases| <= 1 then Err(IndexError(1))
    else if |c.releases| <= 3 then Err(IndexError(3))
    else Ok(Selected(c.releases[1], c.releases[3]))
  }
}
