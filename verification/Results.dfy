/** Options, results and the errors the modelled code returns. */
module Results {

  datatype Option<+T> = None | Some(value: T)

  datatype Error =
    | PacketTooShort(got: nat, need: nat)
    | DecryptionFailed
    | RekeyRequired
    | UnknownFrameType(value: nat)
    | HandshakeError(state: string)

  datatype Result<+T> = Ok(value: T) | Err(error: Error) {

    predicate IsFailure() { Err? }

    function PropagateFailure<U>(): Result<U>
      requires Err?
    {
      Err(error)
    }

    function Extract(): T
      requires Ok?
    {
      value
    }
  }
}
