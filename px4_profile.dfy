/** The platform resolver of px4_defines.h. The header picks its bindings through three
    independent preprocessor chains, each testing the build flags in a fixed order:
      - the entry-point chain (ROS, else NuttX or POSIX, else a hard error);
      - the operating-system chain (NuttX, else POSIX, with QURT and the board
        sub-variants nested inside POSIX);
      - the compatibility chain (ROS or POSIX defines the OK/ERROR aliases).
    Nothing forces the flags to be exclusive, so the model takes any set of flags and
    reproduces the chains' precedence. */
module Px4Profile {
  import opened Wrappers
  import opened FileModes
  import Px4Common

  /** The build flags the header tests: __PX4_ROS, __PX4_NUTTX, __PX4_POSIX, __PX4_QURT,
      __PX4_POSIX_EAGLE, __PX4_POSIX_EXCELSIOR and __PX4_POSIX_BEBOP. */
  datatype Flag = Ros | Nuttx | Posix | Qurt | Eagle | Excelsior | Bebop

  /** The defined build flags and whether the translation unit is compiled as C++. */
  datatype BuildConfig = BuildConfig(flags: set<Flag>, cplusplus: bool)

  /** The only resolution failure: `#error "No target OS defined"`. */
  datatype ResolveError = NoTargetOs

  /** The shape of PX4_MAIN_FUNCTION(prefix): `int main(int argc, char **argv)`, or
      `int <prefix>_task_main(int argc, char *argv[])`. */
  datatype EntryForm = PlainMain | PrefixedTaskMain

  /** PX4_PARAM_GET_BYNAME: ros::param::get on ROS, param_get(param_find(name)) on
      NuttX and POSIX. ParamFindThenGet also stands for `typedef param_t px4_param_t`, which
      only that branch defines; the ROS branch defines no px4_param_t. */
  datatype ParamAccess = RosParamGet | ParamFindThenGet

  /** _PX4_IOC: NuttX's _IOC or POSIX's _IO. */
  datatype IocEncoder = NuttxIoc | PosixIo

  /** PX4_ISFINITE: the constexpr template over __builtin_isfinite (NuttX), std::isfinite
      (POSIX), or the plain __builtin_isfinite macro (QURT). */
  datatype FinitePrimitive = ConstexprBuiltinIsFinite | StdIsFinite | BuiltinIsFinite

  /** Where PX4_TICKS_PER_SEC comes from: a literal in the header, or the
      `extern long PX4_TICKS_PER_SEC` defined elsewhere. */
  datatype TickSource = FixedTicks(perSec: int) | ExternalTicks

  /** OK, ERROR and MAX_RAND, bound on ROS and POSIX. */
  datatype CompatAliases = CompatAliases(ok: int, error: int, maxRand: int)

  /** What the entry-point chain binds. */
  datatype EntryBindings = EntryBindings(entry: EntryForm, paramGet: ParamAccess)

  /** What the operating-system chain binds; None is a name the chain leaves undefined. */
  datatype OsBindings = OsBindings(
    rootFsDir: Option<string>,
    storageDir: Option<string>,
    modes: Option<ModePresets>,
    ioc: Option<IocEncoder>,
    isFinite: Option<FinitePrimitive>,
    ticks: Option<TickSource>)

  /** A resolved profile: every binding the header makes for one build. */
  datatype Profile = Profile(
    px4Ok: int,
    px4Error: int,
    entry: EntryForm,
    paramGet: ParamAccess,
    rootFsDir: Option<string>,
    storageDir: Option<string>,
    modes: Option<ModePresets>,
    ioc: Option<IocEncoder>,
    isFinite: Option<FinitePrimitive>,
    ticks: Option<TickSource>,
    compat: Option<CompatAliases>)

  const TaskMainSuffix: string := "_task_main"
  const QurtTicksPerSec: int := 1000
  const NuttxRootFsDir: string := ""
  const NuttxStorageSuffix: string := "/fs/microsd"
  const LinaroDir: string := "/home/linaro"
  const BebopDir: string := "/data/ftp/internal_000"
  const WorkingDir: string := "."
  const MaxRand: int := 32767

  predicate HasTargetOs(flags: set<Flag>) {
    Ros in flags || Nuttx in flags || Posix in flags
  }

  /** The entry-point chain: ROS is tested first, then NuttX or POSIX; with none of the
      three the build stops. */
  function ResolveEntry(flags: set<Flag>): (r: Result<EntryBindings, ResolveError>)
    ensures r.Failure? <==> !HasTargetOs(flags)
    ensures r.Success? ==> (r.value.entry == PlainMain <==> Ros in flags)
    ensures r.Success? ==> (r.value.paramGet == RosParamGet <==> r.value.entry == PlainMain)
  {
    if Ros in flags then Success(EntryBindings(PlainMain, RosParamGet))
    else if Nuttx in flags || Posix in flags then Success(EntryBindings(PrefixedTaskMain, ParamFindThenGet))
    else Failure(NoTargetOs)
  }

  /** The name PX4_MAIN_FUNCTION(prefix) declares. */
  function MainFunctionName(entry: EntryForm, prefix: string): (r: string)
    ensures entry == PlainMain ==> r == "main"
    ensures entry == PrefixedTaskMain ==>
              |r| == |prefix| + |TaskMainSuffix| && r[..|prefix|] == prefix && r[|prefix|..] == TaskMainSuffix
  {
    match entry
    case PlainMain => "main"
    case PrefixedTaskMain => prefix + TaskMainSuffix
  }

  /** PX4_ROOTFSDIR on POSIX: QURT is tested before the board sub-variants; EAGLE or
      EXCELSIOR before BEBOP; any other POSIX build uses the working directory. */
  function PosixRootFsDir(flags: set<Flag>): (dir: string)
    ensures dir == WorkingDir <==> Qurt in flags || (Eagle !in flags && Excelsior !in flags && Bebop !in flags)
    ensures dir == LinaroDir <==> Qurt !in flags && (Eagle in flags || Excelsior in flags)
    ensures dir == BebopDir <==> Qurt !in flags && Eagle !in flags && Excelsior !in flags && Bebop in flags
  {
    if Qurt in flags then WorkingDir
    else if Eagle in flags || Excelsior in flags then LinaroDir
    else if Bebop in flags then BebopDir
    else WorkingDir
  }

  /** PX4_ISFINITE on POSIX: std::isfinite, defined only for C++, unless QURT replaces it
      with __builtin_isfinite, which it does outside the C++-only block. */
  function PosixIsFinite(flags: set<Flag>, cplusplus: bool): (f: Option<FinitePrimitive>)
    ensures f.Some? <==> cplusplus || Qurt in flags
    ensures f.Some? ==> (f.value == BuiltinIsFinite <==> Qurt in flags)
    ensures f.Some? ==> f.value != ConstexprBuiltinIsFinite
  {
    if Qurt in flags then Some(BuiltinIsFinite)
    else if cplusplus then Some(StdIsFinite)
    else None
  }

  /** The operating-system chain: NuttX is tested before POSIX; a build with neither
      (ROS alone) leaves every name of this chain undefined. */
  function ResolveOs(flags: set<Flag>, cplusplus: bool): (b: OsBindings)
    ensures b.rootFsDir.Some? <==> Nuttx in flags || Posix in flags
    ensures b.storageDir.Some? <==> b.rootFsDir.Some?
    ensures b.modes.Some? <==> b.rootFsDir.Some?
    ensures b.ioc.Some? <==> b.rootFsDir.Some?
    ensures b.ticks.Some? <==> Nuttx !in flags && Posix in flags
    ensures b.modes.Some? ==> MeansDocumentedPermissions(b.modes.value)
    ensures b.storageDir.Some? ==> (b.storageDir == b.rootFsDir <==> Nuttx !in flags)
  {
    if Nuttx in flags then
      OsBindings(
        Some(NuttxRootFsDir),
        Some(NuttxRootFsDir + NuttxStorageSuffix),
        Some(NuttxModes()),
        Some(NuttxIoc),
        if cplusplus then Some(ConstexprBuiltinIsFinite) else None,
        None)
    else if Posix in flags then
      var root := PosixRootFsDir(flags);
      var ticks := if Qurt in flags then FixedTicks(QurtTicksPerSec) else ExternalTicks;
      EncodingsAgree();
      OsBindings(Some(root), Some(root), Some(PosixModes()), Some(PosixIo), PosixIsFinite(flags, cplusplus), Some(ticks))
    else
      OsBindings(None, None, None, None, None, None)
  }

  /** The compatibility chain: OK, ERROR and MAX_RAND on ROS or POSIX. */
  function ResolveCompat(flags: set<Flag>): (c: Option<CompatAliases>)
    ensures c.Some? <==> Ros in flags || Posix in flags
    ensures c.Some? ==> c.value.ok == Px4Common.Px4Ok && c.value.error == Px4Common.Px4Error
    ensures c.Some? ==> c.value.maxRand == 32767
  {
    if Ros in flags || Posix in flags then Some(CompatAliases(0, -1, MaxRand)) else None
  }

  /** The whole header: the three chains together, failing exactly when the entry-point
      chain reaches its #error. */
  function Resolve(config: BuildConfig): (r: Result<Profile, ResolveError>)
    ensures r.Failure? <==> !HasTargetOs(config.flags)
    ensures r.Success? ==> r.value.px4Ok == 0 && r.value.px4Error == -1
  {
    match ResolveEntry(config.flags)
    case Failure(e) => Failure(e)
    case Success(entry) =>
      var os := ResolveOs(config.flags, config.cplusplus);
      Success(Profile(
        Px4Common.Px4Ok, Px4Common.Px4Error,
        entry.entry, entry.paramGet,
        os.rootFsDir, os.storageDir, os.modes, os.ioc, os.isFinite, os.ticks,
        ResolveCompat(config.flags)))
  }
}
