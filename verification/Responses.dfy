/** What every response decoder starts with: the status, and the error of a request that failed. */
module Responses {
  import opened GoBytes
  import opened Frame
  import opened ErrorKinds

  const SUCCESS: bytes := Ascii("SUCCESS")

  datatype Failure = ServerError(text: bytes) | ResponseError | UnknownError

  /** The server's text, when the first field is a string, and otherwise what the decoder says of its own. */
  function FailureOf(fields: seq<Field>, otherwise: Failure): Failure {
    if |fields| > 0 && fields[0].fieldType == 0x01 then ServerError(fields[0].data) else otherwise
  }

  /**
   * From a server's refusal on the wire to the error value the caller sees: with its one text field the frame is
   * delivered under its id, every decoder reports that text, and wrapping it gives back the code and the message.
   */
  lemma RefusalEndToEnd(clrID: u32, status: bytes, id: u16, code: bytes, msg: bytes, otherwise: Failure, rest: bytes)
    requires WellFormed(Message(clrID, status, [Field(id, 0x01, code + [COLON] + msg)])) && COLON !in code
    ensures var m := Message(clrID, status, [Field(id, 0x01, code + [COLON] + msg)]);
            var deliveries := Deliveries(Wire(m) + rest);
            && deliveries != [] && deliveries[0].clrID == clrID && deliveries[0].result.status == status
            && var failure := FailureOf(deliveries[0].result.fields, otherwise);
            && failure == ServerError(code + [COLON] + msg)
            && var e := RzError(AnError(Plain(failure.text)), None);
            && e.Some? && e.value.code == code && e.value.msg == msg && Flatten(e.value) == failure.text
  {
    hide Wire, Deliveries, RzError;
    FirstDelivered(Message(clrID, status, [Field(id, 0x01, code + [COLON] + msg)]), rest);
    ServerText(code, msg);
  }

  /** A decoder speaks for itself exactly when the first field is missing or no string. */
  lemma OwnFailure(fields: seq<Field>, otherwise: Failure)
    requires !otherwise.ServerError?
    ensures FailureOf(fields, otherwise) == otherwise <==> forall f, more | fields == [f] + more :: f.fieldType != 0x01
  {
    if fields != [] {
      assert fields == [fields[0]] + fields[1..];
    }
  }
}
