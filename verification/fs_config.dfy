/** The LittleFS mount configuration (`resolve_fs_base`, `resolve_fs_label`)
    and the once-only mount (`ensure_fs_mounted`). The configured strings
    are parameters here; the build supplies them in the component. */
module FsConfig {
  import opened Types

  const DefaultFsBase: string := "/littlefs"
  const DefaultFsLabel: string := "littlefs"

  /** The mount point actually used for a configured one: the default when
      the configuration is empty, the configuration with a leading '/'
      added when it lacks one, and the configuration itself otherwise. */
  function ResolveFsBase(cfg: string): (base: string)
    ensures |base| > 0 && base[0] == '/'
    ensures cfg != [] && cfg[0] == '/' ==> base == cfg
    ensures cfg != [] && cfg[0] != '/' ==> base[1..] == cfg
    ensures cfg == [] ==> base == DefaultFsBase
  {
    if cfg == [] then DefaultFsBase
    else if cfg[0] != '/' then "/" + cfg
    else cfg
  }

  /** A mount point that is already valid is kept, so correcting twice is
      the same as correcting once. */
  lemma ResolveFsBaseIdempotent(cfg: string)
    ensures ResolveFsBase(ResolveFsBase(cfg)) == ResolveFsBase(cfg)
  {
  }

  /** The partition label actually used: the default when the configuration
      is empty, the configuration otherwise. */
  function ResolveFsLabel(cfg: string): (name: string)
    ensures |name| > 0
    ensures cfg != [] ==> name == cfg
    ensures cfg == [] ==> name == DefaultFsLabel
  {
    if cfg == [] then DefaultFsLabel else cfg
  }

  /** `ensure_fs_mounted`: an already mounted volume is reported mounted
      without calling the driver; otherwise `registerRc` is the driver's
      result and the volume is mounted exactly when it is `Ok`. The result
      is the new mounted flag and the returned code. */
  function EnsureFsMounted(mounted: bool, registerRc: Err): (r: (bool, Err))
    ensures r.0 <==> r.1 == Ok
    ensures mounted ==> r == (true, Ok)
    ensures !mounted ==> r.1 == registerRc
  {
    if mounted then (true, Ok)
    else if registerRc != Ok then (false, registerRc)
    else (true, Ok)
  }

  /** Once mounted, the volume stays mounted whatever the driver reports. */
  lemma MountIsMonotonic(mounted: bool, rc1: Err, rc2: Err)
    requires EnsureFsMounted(mounted, rc1).0
    ensures EnsureFsMounted(EnsureFsMounted(mounted, rc1).0, rc2) == (true, Ok)
  {
  }
}
