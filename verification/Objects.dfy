/** The Kubernetes objects the operator and the routers work on, cut down to the fields that decide behaviour. */
module Objects {
  import opened Wrappers

  type SessionId = string
  type ConfigId = string

  /** Kubernetes never hands out an unnamed pod. */
  type PodName = s: string | s != "" witness "boxy-controller-0"

  /** `Unset` is the phase of a fresh object; `Unknown` stands for any string outside the six known values. */
  datatype Phase = Unset | Pending | Creating | Running | Deleting | Terminated | Unknown

  /** The phases from which a session never comes back. */
  predicate Retired(p: Phase) {
    p == Deleting || p == Terminated
  }

  /**
    * A Session object. Its name is its session id. `uid` tells two objects of one name apart, `marked` is
    * a set deletion timestamp, and `rv` is the resource version that compare-and-swap writes check.
    */
  datatype Session = Session(
    uid: nat,
    config: ConfigId,
    phase: Phase,
    pod: string,
    address: string,
    finalizer: bool,
    marked: bool,
    retain: bool,
    expiresAt: Option<int>,
    lastExecAt: Option<int>,
    terminatedAt: Option<int>,
    rv: nat)

  /** A Sandbox object: the configuration sessions are created from. */
  datatype Config = Config(ttl: int, finalizer: bool, marked: bool, rv: nat)

  /** A controller pod as listed: `ready` is podRunningReady, `deleting` a set deletion timestamp. */
  datatype Pod = Pod(name: PodName, ready: bool, deleting: bool, createdAt: int)
}
