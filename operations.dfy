/**
 * The four kinds of exercise, the string tags the app keys them by, and the
 * two display tables (symbol and short name) with their default entries.
 */
module Operations {
  import opened Options

  datatype Operation = Addition | Subtraction | Multiplication | Division

  /** The tag under which the app stores an operation (problem.operation, breakdown keys). */
  function Tag(op: Operation): string
  {
    match op
    case Addition => "addition"
    case Subtraction => "subtraction"
    case Multiplication => "multiplication"
    case Division => "division"
  }

  /** The `operations` list: button order, and group order of an all-types batch. */
  const AllOperations: seq<Operation> := [Addition, Subtraction, Multiplication, Division]

  /** The list holds each of the four operations exactly once, addition first. */
  lemma AllOperationsListsEachOnce()
    ensures |AllOperations| == 4 && AllOperations[0] == Addition
    ensures forall op :: op in AllOperations
    ensures forall i, j :: 0 <= i < j < |AllOperations| ==> AllOperations[i] != AllOperations[j]
  {
    forall op ensures op in AllOperations {
      match op
      case Addition => assert AllOperations[0] == op;
      case Subtraction => assert AllOperations[1] == op;
      case Multiplication => assert AllOperations[2] == op;
      case Division => assert AllOperations[3] == op;
    }
  }

  /** The operation a tag names, if any; every switch and table in the app keys on this. */
  function OperationOf(tag: string): (r: Option<Operation>)
    ensures forall op :: r == Some(op) <==> Tag(op) == tag
  {
    if tag == "addition" then Some(Addition)
    else if tag == "subtraction" then Some(Subtraction)
    else if tag == "multiplication" then Some(Multiplication)
    else if tag == "division" then Some(Division)
    else None
  }

  /** The symbol table. */
  function SymbolOf(op: Operation): string
  {
    match op
    case Addition => "+"
    case Subtraction => "-"
    case Multiplication => "×"
    case Division => "÷"
  }

  /** The short-name table. */
  function NameOf(op: Operation): string
  {
    match op
    case Addition => "Add"
    case Subtraction => "Sub"
    case Multiplication => "Mult"
    case Division => "Div"
  }

  /** getOperationSymbol: the table entry for a known tag, otherwise addition's "+". */
  function OperationSymbol(tag: string): (s: string)
    ensures forall op :: OperationOf(tag) == Some(op) ==> s == SymbolOf(op)
    ensures OperationOf(tag).None? ==> s == "+"
    ensures s == "+" <==> OperationOf(tag) in {None, Some(Addition)}
  {
    match OperationOf(tag)
    case Some(op) => SymbolOf(op)
    case None => "+"
  }

  /** getOperationName: the table entry for a known tag, otherwise addition's "Add". */
  function OperationName(tag: string): (s: string)
    ensures forall op :: OperationOf(tag) == Some(op) ==> s == NameOf(op)
    ensures OperationOf(tag).None? ==> s == "Add"
    ensures s == "Add" <==> OperationOf(tag) in {None, Some(Addition)}
  {
    match OperationOf(tag)
    case Some(op) => NameOf(op)
    case None => "Add"
  }

  /** Tags never contain '-', which keeps the problem ids built from them apart. */
  lemma TagHasNoDash(op: Operation)
    ensures '-' !in Tag(op)
  {
  }

  /** The two tables agree: a tag is shown as an addition by one exactly when by the other. */
  lemma SymbolAndNameAgree(tag: string)
    ensures OperationSymbol(tag) == "+" <==> OperationName(tag) == "Add"
  {
  }

  /** Both tables tell the four operations apart. */
  lemma TablesDistinguish(a: Operation, b: Operation)
    ensures OperationSymbol(Tag(a)) == OperationSymbol(Tag(b)) <==> a == b
    ensures OperationName(Tag(a)) == OperationName(Tag(b)) <==> a == b
  {
  }
}
