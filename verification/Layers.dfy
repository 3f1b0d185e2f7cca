/** Decisions exchanged between the layers, the engine and the interceptor. */
module Layers {
  import opened Prelude

  datatype Direction = Uplink | Downlink

  datatype Operation = Connect | Send | Recv | DnsLookup

  datatype Mutation =
    | Truncate(size: U64)
    | CorruptBytes(count: U64, seed: U64)
    | InjectBytes(position: U64, data: seq<Octet>, len: U64)
    | ReplacePattern(find: seq<Octet>, findLen: U64, replace: seq<Octet>, replaceLen: U64)
    | CorruptEncoding
    | SwapBytes(pos1: U64, pos2: U64)

  datatype LayerDecision =
    | Continue
    | DelayNs(ns: U64)
    | Drop
    | TimeoutMs(ms: U64)
    | Error(text: string)
    | ConnectionErrorKind(kind: U64)
    | StageReorder
    | Duplicate(extra: U64)
    | NxDomain
    | Mutate(mutations: seq<Mutation>)

  /** Whether `map_stream_decision` turns a decision into an errno return instead of letting the call
      through; a delay does so only on a non-blocking socket whose delay has not yet elapsed. */
  predicate RefusesStream(decision: LayerDecision, nonBlocking: bool, delayPending: bool) {
    match decision
    case Continue => false
    case StageReorder => false
    case Duplicate(_) => false
    case Mutate(_) => false
    case DelayNs(_) => nonBlocking && delayPending
    case _ => true
  }
}
