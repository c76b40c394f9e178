/**
 * The receiver's command-line parameters: the checks made after parsing,
 * and the parameters handed on to the state store.
 *
 * The percentages are `float`s in the program; here they are reals, which
 * agree with floats on the one comparison made (`0 < percent`) for every
 * value but NaN.
 */
module ReceiverParameters {
  import opened Bytes
  import opened Wrappers

  /** The most handler threads the receiver accepts. */
  const HANDLER_THREADS_MAX: int := 64

  /** The store modes, by the names the command line gives them. */
  datatype StoreMode = Single | Tree | Tslog

  /** The write modes of the state files. */
  datatype StoreWriteMode = Rw | Rwd | Rws

  /** The parameters the checks and the store read; console and affinity options are left out. */
  datatype Parameters = Parameters(
    mmsgs: int,
    uniVolumes: int, uniSegments: int, uniAddresses: int,
    handlerThreadsNum: int,
    handlerPercentToStore: real, handlerPercentToReply: real,
    replyAddress: Option<seq<byte>>,
    handlerWorkloadIterations: int,
    storeRoot: string, storeFile: string, storeStateSize: int,
    storeWriteMode: StoreWriteMode,
    storeMode: string)

  /** Why `validate` rejects the parameters, one case per check in the order they are made. */
  datatype Rejection =
    | MmsgsOutOfRange
    | TooFewHandlerThreads
    | TooManyHandlerThreads
    | ReplyAddressMissing
    | UnknownStoreMode

  /** The parameters handed to the state store. */
  datatype StoreParameters = StoreParameters(
    storeRoot: string, storeFile: string,
    uniVolumes: int, uniSegments: int, uniAddresses: int,
    storeStateSize: int, storeWriteMode: StoreWriteMode,
    threads: int, storeMode: StoreMode)

  /** The name of a store mode, as the command line spells it. */
  function ModeName(m: StoreMode): string {
    match m
    case Single => "single"
    case Tree => "tree"
    case Tslog => "tslog"
  }

  /** `StoreMode.valueOf(name)`: the mode of that exact name, None where `valueOf` throws. */
  function StoreModeOf(name: string): (r: Option<StoreMode>)
    ensures r.Some? ==> ModeName(r.value) == name
    ensures r.None? ==> forall m: StoreMode :: ModeName(m) != name
  {
    if name == "single" then Some(Single)
    else if name == "tree" then Some(Tree)
    else if name == "tslog" then Some(Tslog)
    else None
  }

  /** Every store mode is found by its name. */
  lemma StoreModeNames(m: StoreMode)
    ensures StoreModeOf(ModeName(m)) == Some(m)
  {
  }

  /**
   * `validate(BUF_PACKETS_MAX)`: the first failed check, None when every
   * check passes. A reply address is needed only when some packets are to
   * be answered.
   */
  function Validate(p: Parameters, bufPacketsMax: int): (r: Option<Rejection>)
  {
    if p.mmsgs < 1 || bufPacketsMax < p.mmsgs then Some(MmsgsOutOfRange)
    else if p.handlerThreadsNum < 1 then Some(TooFewHandlerThreads)
    else if HANDLER_THREADS_MAX < p.handlerThreadsNum then Some(TooManyHandlerThreads)
    else if 0.0 < p.handlerPercentToReply && p.replyAddress.None? then Some(ReplyAddressMissing)
    else if p.storeMode !in {"single", "tree", "tslog"} then Some(UnknownStoreMode)
    else None
  }

  /** The parameters the receiver can run with. */
  predicate Acceptable(p: Parameters, bufPacketsMax: int) {
    && 1 <= p.mmsgs <= bufPacketsMax
    && 1 <= p.handlerThreadsNum <= HANDLER_THREADS_MAX
    && (p.handlerPercentToReply <= 0.0 || p.replyAddress.Some?)
    && StoreModeOf(p.storeMode).Some?
  }

  /** `validate` passes exactly the acceptable parameters. */
  lemma ValidateAccepts(p: Parameters, bufPacketsMax: int)
    ensures Validate(p, bufPacketsMax).None? <==> Acceptable(p, bufPacketsMax)
  {
    if StoreModeOf(p.storeMode).None? {
      assert ModeName(Single) != p.storeMode && ModeName(Tree) != p.storeMode && ModeName(Tslog) != p.storeMode;
    }
  }

  /**
   * Each rejection names the first check that fails: every earlier check
   * passed and this one did not.
   */
  lemma ValidateReports(p: Parameters, bufPacketsMax: int)
    ensures Validate(p, bufPacketsMax) == Some(MmsgsOutOfRange) <==> !(1 <= p.mmsgs <= bufPacketsMax)
    ensures Validate(p, bufPacketsMax) == Some(TooFewHandlerThreads) <==>
      1 <= p.mmsgs <= bufPacketsMax && p.handlerThreadsNum < 1
    ensures Validate(p, bufPacketsMax) == Some(TooManyHandlerThreads) <==>
      1 <= p.mmsgs <= bufPacketsMax && HANDLER_THREADS_MAX < p.handlerThreadsNum
    ensures Validate(p, bufPacketsMax) == Some(ReplyAddressMissing) <==>
      1 <= p.mmsgs <= bufPacketsMax && 1 <= p.handlerThreadsNum <= HANDLER_THREADS_MAX
      && 0.0 < p.handlerPercentToReply && p.replyAddress.None?
    ensures Validate(p, bufPacketsMax) == Some(UnknownStoreMode) <==>
      1 <= p.mmsgs <= bufPacketsMax && 1 <= p.handlerThreadsNum <= HANDLER_THREADS_MAX
      && (p.handlerPercentToReply <= 0.0 || p.replyAddress.Some?) && StoreModeOf(p.storeMode).None?
  {
  }

  /**
   * Nothing but the checked fields decides: the UNI shape, the store
   * percentage, the workload, the store's files and sizes are never
   * range-checked.
   */
  lemma ValidateIgnoresUnchecked(p: Parameters, q: Parameters, bufPacketsMax: int)
    requires p.mmsgs == q.mmsgs && p.handlerThreadsNum == q.handlerThreadsNum
    requires p.handlerPercentToReply == q.handlerPercentToReply && p.replyAddress == q.replyAddress
    requires p.storeMode == q.storeMode
    ensures Validate(p, bufPacketsMax) == Validate(q, bufPacketsMax)
  {
  }

  /**
   * `buildStateStoreParameters`: the store's root, file, UNI shape, state
   * size and write mode copied, one store thread, and the store mode looked
   * up by name; None where the lookup throws.
   */
  function BuildStateStoreParameters(p: Parameters): (r: Option<StoreParameters>)
    ensures r.Some? <==> StoreModeOf(p.storeMode).Some?
    ensures r.Some? ==>
      && r.value.threads == 1
      && ModeName(r.value.storeMode) == p.storeMode
      && r.value.storeRoot == p.storeRoot && r.value.storeFile == p.storeFile
      && r.value.uniVolumes == p.uniVolumes && r.value.uniSegments == p.uniSegments
      && r.value.uniAddresses == p.uniAddresses
      && r.value.storeStateSize == p.storeStateSize && r.value.storeWriteMode == p.storeWriteMode
  {
    match StoreModeOf(p.storeMode)
    case None => None
    case Some(mode) =>
      Some(StoreParameters(p.storeRoot, p.storeFile, p.uniVolumes, p.uniSegments, p.uniAddresses,
                           p.storeStateSize, p.storeWriteMode, 1, mode))
  }

  /** Parameters that pass `validate` always give the store its parameters: the lookup cannot throw. */
  lemma ValidatedBuilds(p: Parameters, bufPacketsMax: int)
    requires Validate(p, bufPacketsMax).None?
    ensures BuildStateStoreParameters(p).Some?
  {
    ValidateAccepts(p, bufPacketsMax);
  }
}
