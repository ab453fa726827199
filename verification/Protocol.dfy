/** The four message shapes of protocol.go. */
module Protocol {
  import opened Bytes

  datatype Option<+T> = None | Some(value: T)

  datatype Code = ThanksABunch | Busy | AreYouKidding | Gaveup

  datatype Request = Request(id: ID, data: Slice, difficulty: Uint8)

  datatype Result = Result(id: ID, nonce: Slice, hash: Slice)

  datatype Message =
    | SkillsMsg(difficulty: Uint8)
    | StatusMsg(id: ID, code: Code)
    | RequestMsg(request: Request)
    | ResultMsg(result: Result)

  type Peer = nat

  /**
   * A message on the network. `honest` is bookkeeping that no handler reads: it records that this message, and
   * whatever message caused it, was sent by the node it names as its source.
   */
  datatype Packet = Packet(src: Peer, dst: Peer, msg: Message, honest: bool)
}
