/** The CoAP response codes the server answers with, in the `class.detail`
    notation of section 5.9 of RFC 7252 and their one-byte encoding from
    section 3 of RFC 7252 (class in the top three bits, detail in the low five). */
module Coap {

  datatype Code = Content | Changed | BadRequest | Forbidden | NotFound | MethodNotAllowed {

    function Class(): nat {
      match this
      case Content => 2
      case Changed => 2
      case _ => 4
    }

    function Detail(): nat {
      match this
      case Content => 5
      case Changed => 4
      case BadRequest => 0
      case Forbidden => 3
      case NotFound => 4
      case MethodNotAllowed => 5
    }

    /** The code byte on the wire. */
    function Byte(): (b: nat)
      ensures b < 256
      ensures b / 32 == Class() && b % 32 == Detail()
    {
      Class() * 32 + Detail()
    }

    predicate IsSuccess() {
      Class() == 2
    }
  }
}
