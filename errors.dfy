/** The error taxonomy of `Cash`: one kind per arithmetic operator, each
    meaning "this operator does not accept an operand of that type". */
module CashErrors {

  datatype Error =
    | AdditionError
    | SubtractionError
    | MultiplicationError
    | DivisionError

  /** The four arithmetic operators of `Cash`. */
  datatype Operator = Plus | Minus | Times | Divide

  /** The error kind an operator raises on an unsupported operand. */
  function ErrorOf(op: Operator): (e: Error)
    ensures e.AdditionError? <==> op.Plus?
    ensures e.SubtractionError? <==> op.Minus?
    ensures e.MultiplicationError? <==> op.Times?
    ensures e.DivisionError? <==> op.Divide?
  {
    match op
    case Plus => AdditionError
    case Minus => SubtractionError
    case Times => MultiplicationError
    case Divide => DivisionError
  }

  /** The operator an error kind belongs to: the inverse of `ErrorOf`. */
  function OperatorOf(e: Error): (op: Operator)
    ensures ErrorOf(op) == e
  {
    match e
    case AdditionError => Plus
    case SubtractionError => Minus
    case MultiplicationError => Times
    case DivisionError => Divide
  }

  /** The four kinds are pairwise distinct: no two operators share one. */
  lemma ErrorKindsDistinct()
    ensures forall p, q :: ErrorOf(p) == ErrorOf(q) ==> p == q
  {
  }
}
