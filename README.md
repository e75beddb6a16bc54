# PX4 platform defines, modelled in Dafny

This project models `src/platforms/px4_defines.h` of the PX4 flight-control firmware: the
header that resolves, at compile time, which platform a build targets (ROS, NuttX, POSIX,
and QURT or one of the EAGLE, EXCELSIOR and BEBOP boards under POSIX). From that choice
it fixes the entry-point form, how a parameter is read by name, the root-filesystem and
storage directories, the three `open()` permission presets, the ioctl encoder, the
finiteness primitive and the tick-rate source. It also defines helpers that do not depend
on the platform:
- the status codes `PX4_OK` and `PX4_ERROR`;
- the `PARAM_<name>_DEFAULT` name pasting;
- row-major matrix indexing (`PX4_ARRAY2D`, `PX4_R`).

Microsecond-to-tick rounding (`USEC_PER_TICK`, `USEC2TICK`, lines 160-161) is defined by this
header only in its POSIX branch, QURT included; in the model it goes with a profile whose
`ticks` binding is present. NuttX supplies these macros itself, and a ROS-only build has
neither.

Files:
- `wrappers.dfy`: `Option` and `Result`.
- `px4_common.dfy` (module `Px4Common`): the status codes, `DefaultValueName` with its
  inverse, and `Offset`/`Array2D`/`Rotation`.
- `px4_ticks.dfy` (module `Px4Ticks`): `UsecPerTick` and `UsecToTick`, written with C's
  truncating division (`CDiv`).
- `file_modes.dfy` (module `FileModes`): the `<sys/stat.h>` permission bits, with the
  values IEEE Std 1003.1-2008 gives them, and the NuttX and POSIX encodings of the presets.
- `px4_profile.dfy` (module `Px4Profile`): the header's three `#if` chains and `Resolve`.
- `profile_properties.dfy` (module `ProfileProperties`): lemmas about the resolved profiles.

The input is `BuildConfig(flags, cplusplus)`: the set of defined build flags and whether
the unit is compiled as C++. The header does not make the flags exclusive, so the model
accepts any set and follows the order in which the `#if` chains test them:
- ROS wins the entry-point chain.
- NuttX wins the operating-system chain over POSIX.
- QURT is tested before the board flags.
- EAGLE or EXCELSIOR is tested before BEBOP.
- With no ROS, NuttX or POSIX flag, `Resolve` fails with `NoTargetOs`. This is the
  header's `#error`.

A name that a chain leaves undefined is `None`.

Two facts about the header worth stating plainly:
- ROS alone binds no directories, presets, `_PX4_IOC`, `PX4_ISFINITE` or tick rate
  (`ProfileProperties.RosAloneBindsNoOsNames`). Nor does the ROS branch define the
  `px4_param_t` handle type: `typedef param_t px4_param_t` (line 91) is in the NuttX/POSIX
  branch only. The model folds that typedef into `ParamFindThenGet`.
- The QURT redefinition (lines 174-175) stands outside the `__cplusplus` block, so a QURT
  build binds `PX4_ISFINITE` in C as well, although the header's own comment at lines
  137-138 says it is only used in C++ (`Px4Profile.PosixIsFinite`).

## Model

| member | source | states |
|---|---|---|
| `Px4Common.DefaultValueName` | src/platforms/px4_defines.h:49 | the pasted name starts with `PARAM_`, ends with `_DEFAULT`, and holds exactly the parameter name in between |
| `Px4Common.DefaultValueNameRoundTrip` | src/platforms/px4_defines.h:49 | stripping prefix and suffix from `PARAM_<n>_DEFAULT` gives back `n` |
| `Px4Common.ParamNameOfDefaultRoundTrip` | src/platforms/px4_defines.h:49 | any symbol of the `PARAM_..._DEFAULT` shape is the default-value name of the name it contains |
| `Px4Common.DefaultValueNameInjective` | src/platforms/px4_defines.h:49 | distinct parameter names give distinct default-value names |
| `Px4Common.Offset` | src/platforms/px4_defines.h:59 | no ensures: the offset `x*ncols + y` that `PX4_ARRAY2D` indexes; characterized by `OffsetInBounds`, `OffsetInverse` and `OffsetInjective` |
| `Px4Common.Array2D` | src/platforms/px4_defines.h:59 | no ensures: `PX4_ARRAY2D` as the element at `Offset`; requires the offset to be an index of the array, since reading outside it is undefined in C |
| `Px4Common.Rotation` | src/platforms/px4_defines.h:62 | no ensures: `PX4_R` as `Array2D` with three columns; requires the offset to be an index; characterized by `RotationIsThreeColumnArray2D` |
| `Px4Common.OffsetInBounds` | src/platforms/px4_defines.h:59 | for row `x < nrows` and column `y < ncols`, the offset `x*ncols + y` lies in `[0, nrows*ncols)` |
| `Px4Common.OffsetInverse` | src/platforms/px4_defines.h:59 | dividing the offset by `ncols` gives back the row, and the remainder gives back the column |
| `Px4Common.OffsetInjective` | src/platforms/px4_defines.h:59 | distinct (row, column) pairs with the column in range index distinct cells |
| `Px4Common.RotationIsThreeColumnArray2D` | src/platforms/px4_defines.h:59-62 | `PX4_R(a,x,y)` is `PX4_ARRAY2D(a,3,x,y)`, i.e. `a[3x+y]`, and stays inside nine cells for a 3x3 matrix |
| `Px4Ticks.CDiv` | src/platforms/px4_defines.h:160-161 | C's truncating `/`, for every nonzero divisor: the remainder `a - q*b` is smaller than the divisor in magnitude and is zero or has the sign of `a`; for a positive divisor this is `a / b` when `a >= 0` and `-((-a) / b)` when `a < 0` |
| `Px4Ticks.UsecPerTick` | src/platforms/px4_defines.h:160 | the period is nonzero exactly when the tick rate lies in [-1000000, 1000000]; for a positive rate it is the largest `p` with `p*rate <= 1000000` |
| `Px4Ticks.UsecToTick` | src/platforms/px4_defines.h:161 | no ensures: `USEC2TICK`; requires a tick rate that makes the period nonzero (no division by zero); characterized by `UsecToTickFloor`, `UsecToTickIsNearest`, `UsecToTickWithinHalfPeriod` and `UsecToTickMonotone` |
| `Px4Ticks.UsecToTickFloor` | src/platforms/px4_defines.h:160-161 | for a positive rate and `x >= 0`, `USEC2TICK(x) = (x + P/2) / P` with floor division |
| `Px4Ticks.TooFastTickRateIsUndefined` | src/platforms/px4_defines.h:160-161 | above 1000000 ticks per second the period is 0 and `USEC2TICK` is undefined |
| `Px4Ticks.NegativeCountMissesHalfPeriod` | src/platforms/px4_defines.h:160-161 | with C's truncating division, -1501 us at 1000 ticks/s converts to -1 tick, 501 us away |
| `Px4Ticks.UsecToTickMonotone` | src/platforms/px4_defines.h:161 | `USEC2TICK` is monotone in the microsecond count |
| `Px4Ticks.UsecToTickWithinHalfPeriod` | src/platforms/px4_defines.h:160-161 | for `x >= 0`, the distance between `USEC2TICK(x)*P` and `x` is at most `P/2` |
| `Px4Ticks.UsecToTickIsNearest` | src/platforms/px4_defines.h:160-161 | for `x >= 0`, `USEC2TICK(x)*P` is a multiple of `P` nearest to `x`, and on a tie the larger one (half rounds up) |
| `Px4Ticks.ThousandTicksPerSecond` | src/platforms/px4_defines.h:160-168 | at 1000 ticks/s the period is 1000 us; 0, 499, 500, 999, 1000 and 1500 us give 0, 0, 1, 1, 1 and 2 ticks |
| `FileModes.NuttxModes` | src/platforms/px4_defines.h:111-113 | the NuttX presets are octal literals granting exactly the documented permissions (rwx for all; rw for all; rw for the owner) and no other bits |
| `FileModes.PosixModes` | src/platforms/px4_defines.h:150-152 | the POSIX presets are unions of the permission bits granting exactly the same documented permissions and no other bits |
| `FileModes.EncodingsAgree` | src/platforms/px4_defines.h:110-152 | the NuttX octal literals and the POSIX unions both grant exactly the documented permissions and are equal numbers |
| `FileModes.DocumentedPermissionsDetermineBits` | src/platforms/px4_defines.h:149-152 | granting the documented owner/group/other permissions and nothing else fixes the presets at 0777, 0666 and 0600 |
| `FileModes.PresetsNest` | src/platforms/px4_defines.h:110-113 | the bits of 0600 are a subset of those of 0666, which are a subset of those of 0777 |
| `Px4Profile.ResolveEntry` | src/platforms/px4_defines.h:64-99 | fails exactly when none of ROS, NuttX and POSIX is defined; the entry point is `main` exactly when ROS is defined, which is also when the parameter read goes through ROS |
| `Px4Profile.MainFunctionName` | src/platforms/px4_defines.h:75-87 | `main` for ROS, otherwise the prefix followed by `_task_main` |
| `Px4Profile.PosixRootFsDir` | src/platforms/px4_defines.h:163-191 | `.` exactly when QURT or no board flag is set, `/home/linaro` exactly for EAGLE/EXCELSIOR without QURT, `/data/ftp/internal_000` exactly for BEBOP alone |
| `Px4Profile.PosixIsFinite` | src/platforms/px4_defines.h:137-175 | on POSIX, PX4_ISFINITE is bound exactly in C++ or on QURT, and it is `__builtin_isfinite` exactly on QURT |
| `Px4Profile.ResolveOs` | src/platforms/px4_defines.h:101-196 | directories, presets and ioctl encoder are bound exactly on NuttX or POSIX; the tick rate only on POSIX without NuttX; presets always mean the documented permissions; storage equals root exactly when not NuttX |
| `Px4Profile.ResolveCompat` | src/platforms/px4_defines.h:198-208 | `OK`/`ERROR`/`MAX_RAND` are bound exactly on ROS or POSIX, with `OK`/`ERROR` the values of `PX4_OK`/`PX4_ERROR` and `MAX_RAND = 32767` |
| `Px4Profile.Resolve` | src/platforms/px4_defines.h:55-208 | resolution fails exactly when no target OS is defined; every resolved profile has `PX4_OK = 0` and `PX4_ERROR = -1` |
| `ProfileProperties.ErrorCodesUniform` | src/platforms/px4_defines.h:55-204 | 0 and -1 in every profile; `OK`/`ERROR` present exactly on ROS or POSIX and equal to them |
| `ProfileProperties.RosTakesPrecedence` | src/platforms/px4_defines.h:64-78 | with ROS defined, resolution succeeds with `main` and `ros::param::get`, even with NuttX or POSIX also defined, whatever the prefix |
| `ProfileProperties.TaskMainWithoutRos` | src/platforms/px4_defines.h:80-94 | without ROS, NuttX or POSIX gives `<prefix>_task_main` and param_find-then-param_get |
| `ProfileProperties.TaskMainNameInjective` | src/platforms/px4_defines.h:87 | distinct prefixes give distinct task entry points |
| `ProfileProperties.NuttxBindings` | src/platforms/px4_defines.h:101-113 | NuttX: root `""`, storage `"/fs/microsd"`, octal presets, `_IOC`, no tick rate |
| `ProfileProperties.PosixStorageIsRootFs` | src/platforms/px4_defines.h:149-195 | POSIX without NuttX: storage is bound and equals root; symbolic presets; `_IO` |
| `ProfileProperties.QurtBindings` | src/platforms/px4_defines.h:163-175 | QURT under POSIX: `.` for both directories whatever the board flags; 1000 ticks/s; `__builtin_isfinite` in C and C++ |
| `ProfileProperties.QurtTickConversion` | src/platforms/px4_defines.h:160-168 | QURT's tick rate gives period 1000 and rounds 499/500/1000/1500 us to 0/1/1/2 ticks |
| `ProfileProperties.PlainPosixBindings` | src/platforms/px4_defines.h:177-191 | POSIX without QURT: external tick rate; EAGLE/EXCELSIOR, then BEBOP, then `.` for storage |
| `ProfileProperties.BoardsMatterOnlyOnPlainPosix` | src/platforms/px4_defines.h:163-191 | outside POSIX-without-NuttX-or-QURT, adding or removing board flags leaves the whole profile unchanged |
| `ProfileProperties.RosAloneBindsNoOsNames` | src/platforms/px4_defines.h:64-208 | ROS alone binds no directory, preset, ioctl encoder, finiteness primitive or tick rate, only `OK`, `ERROR` and `MAX_RAND = 32767` |
| `ProfileProperties.IsFiniteSelection` | src/platforms/px4_defines.h:126-175 | the finiteness primitive per profile and language mode: the constexpr built-in on NuttX in C++, `__builtin_isfinite` on QURT, `std::isfinite` on other POSIX in C++, none otherwise |
| `ProfileProperties.BuiltinFinitenessWorkaround` | src/platforms/px4_defines.h:126-175 | a compiler built-in is selected exactly on NuttX in C++ and on QURT |
| `ProfileProperties.ModesAgreeAcrossProfiles` | src/platforms/px4_defines.h:110-152 | any two profiles that bind the presets bind the same three numbers |
| `ProfileProperties.StorageDirIsKnown` | src/platforms/px4_defines.h:106-195 | a bound storage directory is one of `/fs/microsd`, `.`, `/home/linaro`, `/data/ftp/internal_000` |
| `ProfileProperties.GeneralPosixScenario` | src/platforms/px4_defines.h:132-195 | plain POSIX in C++: storage `.`, external tick rate, `std::isfinite`; at 1000 ticks/s, 1500 us is 2 ticks |

## Left out

- The floating-point constants `M_DEG_TO_RAD(_F)`, `M_RAD_TO_DEG(_F)`, `M_PI_F`, `M_PI_2_F`, `M_SQRT1_2_F` and `M_TWOPI(_F)` (lines 210-226). They are float literals and float casts, and the model has no floating point.
- What `PX4_ISFINITE` computes. It is a floating-point test. The model records only which primitive each profile selects.
- The bit layout of `_IOC` and `_IO`. Their definitions come from NuttX and Linux headers that are not part of this model, so only a tag for the chosen encoder is kept.
- `param_get`, `param_find`, `ros::param::get`, `PARAM_DEFINE_INT32` and `PARAM_DEFINE_FLOAT`. These are external subsystems. `PX4_PARAM_DEFINE_INT32/FLOAT` (lines 52-53) are modelled only through the default-value name they pass (`DefaultValueName`).
- `getreg32` (line 158). It is a volatile memory read.
- Header includes, `PRIu64`/`PRId64`, `offsetof`, `O_BINARY`, `noreturn_function` and `SIOCDEVPRIVATE`. They are plumbing with no behaviour to state.
- The value of the external `PX4_TICKS_PER_SEC` on non-QURT POSIX. It is defined outside this header, so the tick functions take it as a parameter.
- The NuttX tick constants. On NuttX, `USEC_PER_TICK` comes from NuttX itself, not from this header.
- Textual macro expansion. `PX4_ARRAY2D` does not parenthesise `_x`, `_ncols` or `_y`, so `PX4_ARRAY2D(a, n, i + 1, j)` would index `i + 1*n + j`. The model is a function on values, which is correct only for atomic arguments.
- C integer widths. Integers are unbounded, so overflow of `x + USEC_PER_TICK/2` in a `long` is not modelled.
- Px4Ticks.UsecToTickWithinHalfPeriod: states the half-period bound only for `x >= 0`. For negative `x`, C's truncating division (which `UsecToTick` models) can be off by more than half a period. Example: `x = -1501` at a period of 1000.
- Px4Ticks.UsecToTickIsNearest: states nearest rounding only for `x >= 0`, for the same reason.
- Macro redefinition clashes. The model does not check that a flag combination which is not exclusive redefines no macro (for example `OK` against NuttX's own headers), since those headers are not part of this model.
