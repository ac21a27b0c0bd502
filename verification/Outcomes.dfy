/** Results shared by the models of this project. */
module Outcomes {

  datatype Option<+T> = None | Some(value: T)

  /** `Fault` stands for a failed assertion of the program or an access to freed memory. */
  datatype Outcome<+T> = Fine(value: T) | Fault {
    predicate IsFailure() { Fault? }
    function PropagateFailure<U>(): Outcome<U> requires Fault? { Fault }
    function Extract(): T requires Fine? { value }
  }
}
