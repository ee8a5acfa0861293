/** Outcomes of a write to a remote store. A write whose acknowledgement is lost reports an error
    although it took effect. */
module Writes {
  datatype Write = Acked | Rejected | AppliedUnacked {
    predicate Applied() { !Rejected? }
  }
}
