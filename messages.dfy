/**
 * The contract this layer consumes from the message definitions, and the
 * error conditions it can raise. A message's own bit-layout decoding and the
 * frame representation are external: they appear here only as opaque types
 * and as the function each message carries.
 */
module Messages {
  import opened Wrappers

  /** A raw CAN frame, handed to each message's decoder unexamined. */
  type Frame

  /** The keyword arguments of a message written as a nested mapping. */
  type MessageArgs

  /** Decoded signals of one frame: signal name to value. */
  type Fields = map<string, int>

  /** A message definition: its two keys and its decoder. */
  datatype Message = Message(name: string, id: int, unpack: Frame -> Option<Fields>)

  /** What the external Message constructor derives from its keyword arguments. */
  datatype Layout = Layout(id: int, unpack: Frame -> Option<Fields>)

  /** The external Message constructor: it fails with a reason or yields a layout. */
  type Constructor = MessageArgs -> Result<Layout, string>

  /** Python truthiness of a decoder's result: present and non-empty. */
  predicate Truthy(r: Option<Fields>) {
    r.Some? && |r.value| > 0
  }

  /** The two declared keys of the message collection. */
  datatype Key = Name(name: string) | Id(id: int)

  predicate HasKey(m: Message, k: Key) {
    match k
    case Name(n) => m.name == n
    case Id(i) => m.id == i
  }

  /** An interest of a filtered bus: an int id, a str name, or a value of any other type. */
  datatype Interest = IdInterest(id: int) | NameInterest(name: string) | OtherInterest(shown: string)

  datatype InterestProblem = WrongType | Missing

  datatype Error =
    | DuplicateKey(key: Key)
    | KeyNotFound(key: Key)
    | ConstructionFailed(reason: string)
    | InMessage(message: string, cause: Error)
    | InvalidInterest(bus: string, interest: Interest, problem: InterestProblem)
}
