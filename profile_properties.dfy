/** Properties of the resolved profiles: the precedence among the build flags, the
    bindings each target gets, and what stays the same across every target. */
module ProfileProperties {
  import opened Wrappers
  import opened FileModes
  import opened Px4Profile
  import Px4Ticks

  /** The board sub-variant flags. */
  const Boards: set<Flag> := {Eagle, Excelsior, Bebop}

  /** A POSIX build that is neither NuttX nor QURT: the only one in which the board
      flags choose the directories. */
  predicate PlainPosix(flags: set<Flag>) {
    Posix in flags && Nuttx !in flags && Qurt !in flags
  }

  /** PX4_OK and PX4_ERROR are 0 and -1 in every profile; where OK and ERROR are bound
      (ROS or POSIX) they take the same values. */
  lemma ErrorCodesUniform(c: BuildConfig)
    requires Resolve(c).Success?
    ensures Resolve(c).value.px4Ok == 0 && Resolve(c).value.px4Error == -1
    ensures Resolve(c).value.compat.Some? <==> Ros in c.flags || Posix in c.flags
    ensures Resolve(c).value.compat.Some? ==>
              Resolve(c).value.compat.value.ok == Resolve(c).value.px4Ok
              && Resolve(c).value.compat.value.error == Resolve(c).value.px4Error
  {
  }

  /** ROS wins the entry-point chain, whatever else is defined: plain main() and
      ros::param::get, and the prefix is ignored. */
  lemma RosTakesPrecedence(c: BuildConfig, prefix: string)
    requires Ros in c.flags
    ensures Resolve(c).Success?
    ensures Resolve(c).value.entry == PlainMain && Resolve(c).value.paramGet == RosParamGet
    ensures MainFunctionName(Resolve(c).value.entry, prefix) == "main"
  {
  }

  /** Without ROS, NuttX or POSIX gives <prefix>_task_main and param_find-then-param_get. */
  lemma TaskMainWithoutRos(c: BuildConfig, prefix: string)
    requires Ros !in c.flags && (Nuttx in c.flags || Posix in c.flags)
    ensures Resolve(c).Success?
    ensures Resolve(c).value.entry == PrefixedTaskMain && Resolve(c).value.paramGet == ParamFindThenGet
    ensures MainFunctionName(Resolve(c).value.entry, prefix) == prefix + "_task_main"
  {
  }

  /** Distinct prefixes declare distinct task entry points. */
  lemma TaskMainNameInjective(p: string, q: string)
    requires MainFunctionName(PrefixedTaskMain, p) == MainFunctionName(PrefixedTaskMain, q)
    ensures p == q
  {
    var n := MainFunctionName(PrefixedTaskMain, p);
    assert |p| == |q|;
    assert p == n[..|p|] == q;
  }

  /** NuttX: root "" and storage "" "/fs/microsd", octal modes, _IOC, and no tick rate
      from this header. */
  lemma NuttxBindings(c: BuildConfig)
    requires Nuttx in c.flags
    ensures Resolve(c).Success?
    ensures Resolve(c).value.rootFsDir == Some("")
    ensures Resolve(c).value.storageDir == Some("/fs/microsd")
    ensures Resolve(c).value.modes == Some(NuttxModes())
    ensures Resolve(c).value.ioc == Some(NuttxIoc)
    ensures Resolve(c).value.ticks.None?
  {
    assert NuttxRootFsDir + NuttxStorageSuffix == "/fs/microsd";
  }

  /** POSIX (without NuttX): PX4_STORAGEDIR is PX4_ROOTFSDIR, modes are the symbolic
      unions, and _PX4_IOC is _IO. */
  lemma PosixStorageIsRootFs(c: BuildConfig)
    requires Posix in c.flags && Nuttx !in c.flags
    ensures Resolve(c).Success?
    ensures Resolve(c).value.rootFsDir.Some?
    ensures Resolve(c).value.storageDir == Resolve(c).value.rootFsDir
    ensures Resolve(c).value.modes == Some(PosixModes())
    ensures Resolve(c).value.ioc == Some(PosixIo)
  {
  }

  /** QURT under POSIX: the working directory whatever board flags are set, the fixed
      tick rate 1000, and __builtin_isfinite even in C. */
  lemma QurtBindings(c: BuildConfig)
    requires Posix in c.flags && Nuttx !in c.flags && Qurt in c.flags
    ensures Resolve(c).Success?
    ensures Resolve(c).value.rootFsDir == Some(".") && Resolve(c).value.storageDir == Some(".")
    ensures Resolve(c).value.ticks == Some(FixedTicks(1000))
    ensures Resolve(c).value.isFinite == Some(BuiltinIsFinite)
  {
  }

  /** QURT's tick rate gives a 1000 us period, so 499 us is 0 ticks and 500 us is 1. */
  lemma QurtTickConversion(c: BuildConfig)
    requires Posix in c.flags && Nuttx !in c.flags && Qurt in c.flags
    ensures Resolve(c).Success? && Resolve(c).value.ticks.Some?
    ensures var tps := Resolve(c).value.ticks.value.perSec;
            && Px4Ticks.DefinedTickRate(tps)
            && Px4Ticks.UsecPerTick(tps) == 1000
            && Px4Ticks.UsecToTick(tps, 499) == 0
            && Px4Ticks.UsecToTick(tps, 500) == 1
            && Px4Ticks.UsecToTick(tps, 1000) == 1
            && Px4Ticks.UsecToTick(tps, 1500) == 2
  {
    QurtBindings(c);
    Px4Ticks.ThousandTicksPerSecond();
  }

  /** POSIX without QURT: EAGLE or EXCELSIOR, then BEBOP, then the working directory;
      the tick rate is the external PX4_TICKS_PER_SEC. */
  lemma PlainPosixBindings(c: BuildConfig)
    requires PlainPosix(c.flags)
    ensures Resolve(c).Success?
    ensures Resolve(c).value.ticks == Some(ExternalTicks)
    ensures Eagle in c.flags || Excelsior in c.flags ==> Resolve(c).value.storageDir == Some("/home/linaro")
    ensures Eagle !in c.flags && Excelsior !in c.flags && Bebop in c.flags ==>
              Resolve(c).value.storageDir == Some("/data/ftp/internal_000")
    ensures c.flags !! Boards ==> Resolve(c).value.storageDir == Some(".")
  {
  }

  /** Outside a plain POSIX build the board flags change nothing at all. */
  lemma BoardsMatterOnlyOnPlainPosix(c: BuildConfig, d: BuildConfig)
    requires c.cplusplus == d.cplusplus
    requires c.flags - Boards == d.flags - Boards
    requires !PlainPosix(c.flags)
    ensures Resolve(c) == Resolve(d)
  {
    forall f | f !in Boards
      ensures f in c.flags <==> f in d.flags
    {
      assert f in c.flags <==> f in c.flags - Boards;
    }
    assert Ros !in Boards && Nuttx !in Boards && Posix !in Boards && Qurt !in Boards;
  }

  /** ROS alone binds none of the operating-system names: no directories, no modes, no
      _PX4_IOC, no PX4_ISFINITE and no tick rate; only OK, ERROR and MAX_RAND. */
  lemma RosAloneBindsNoOsNames(c: BuildConfig)
    requires Ros in c.flags && Nuttx !in c.flags && Posix !in c.flags
    ensures Resolve(c).Success?
    ensures var p := Resolve(c).value;
            && p.rootFsDir.None? && p.storageDir.None? && p.modes.None?
            && p.ioc.None? && p.isFinite.None? && p.ticks.None?
            && p.compat == Some(CompatAliases(0, -1, 32767))
  {
  }

  /** Which finiteness primitive each profile selects, and for which language mode. */
  lemma IsFiniteSelection(c: BuildConfig)
    requires Resolve(c).Success?
    ensures var f := Resolve(c).value.isFinite;
            && (Nuttx in c.flags ==> f == (if c.cplusplus then Some(ConstexprBuiltinIsFinite) else None))
            && (Nuttx !in c.flags && Posix in c.flags && Qurt in c.flags ==> f == Some(BuiltinIsFinite))
            && (PlainPosix(c.flags) ==> f == (if c.cplusplus then Some(StdIsFinite) else None))
            && (Nuttx !in c.flags && Posix !in c.flags ==> f.None?)
  {
  }

  /** The compiler built-in is chosen exactly on NuttX (C++ only) and on QURT: the two
      targets whose math library the header works around. */
  lemma BuiltinFinitenessWorkaround(c: BuildConfig)
    requires Resolve(c).Success?
    ensures var f := Resolve(c).value.isFinite;
            (f == Some(ConstexprBuiltinIsFinite) || f == Some(BuiltinIsFinite))
            <==> (Nuttx in c.flags && c.cplusplus) || (Nuttx !in c.flags && Posix in c.flags && Qurt in c.flags)
  {
  }

  /** The three presets are the same numbers in every profile that binds them, whichever
      encoding it writes them in. */
  lemma {:induction false} ModesAgreeAcrossProfiles(c: BuildConfig, d: BuildConfig)
    requires Resolve(c).Success? && Resolve(d).Success?
    requires Resolve(c).value.modes.Some? && Resolve(d).value.modes.Some?
    ensures var m, n := Resolve(c).value.modes.value, Resolve(d).value.modes.value;
            m.mode777 == n.mode777 && m.mode666 == n.mode666 && m.mode600 == n.mode600
  {
    DocumentedPermissionsDetermineBits(Resolve(c).value.modes.value);
    DocumentedPermissionsDetermineBits(Resolve(d).value.modes.value);
  }

  /** Every bound storage directory is one of the header's four literals. */
  lemma StorageDirIsKnown(c: BuildConfig)
    requires Resolve(c).Success? && Resolve(c).value.storageDir.Some?
    ensures Resolve(c).value.storageDir.value in {"/fs/microsd", ".", "/home/linaro", "/data/ftp/internal_000"}
  {
    if Nuttx in c.flags {
      NuttxBindings(c);
    }
  }

  /** A general POSIX build with no sub-variant and an external tick rate of 1000:
      storage in the working directory and 1500 us is 2 ticks. */
  lemma GeneralPosixScenario()
    ensures var r := Resolve(BuildConfig({Posix}, true));
            && r.Success?
            && r.value.storageDir == Some(".")
            && r.value.ticks == Some(ExternalTicks)
            && r.value.isFinite == Some(StdIsFinite)
            && Px4Ticks.DefinedTickRate(1000) && Px4Ticks.UsecToTick(1000, 1500) == 2
  {
  }
}
