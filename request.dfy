/**
 * The JSON values a request body can carry, as far as the handlers look at
 * them, and the way JavaScript treats them: truthiness (`!x`, `x || y`),
 * conversion inside a template literal (`${x}`), destructuring defaults and
 * the strict comparisons of a `switch`.
 */
module Request {

  /**
   * One property of a parsed JSON body.  `Missing` is `undefined` (the key is
   * absent), `Text` a JSON string, and `Other` any number, boolean, array or
   * object, given by its truthiness and by the string JavaScript's `String`
   * conversion produces for it.  `Unconvertible` is an object (or an array
   * holding one) whose own `toString` property is not a function, such as
   * `{"toString": 1}`: it is truthy, and converting it to a string throws
   * a `TypeError`, because `valueOf` hands back the object itself.
   */
  datatype Field = Missing | Null | Text(s: string) | Other(truthy: bool, shown: string) | Unconvertible

  /** JavaScript truthiness: `undefined`, `null`, `""` and the falsy numbers and `false` are falsy. */
  predicate Truthy(f: Field) {
    match f
    case Missing => false
    case Null => false
    case Text(s) => s != ""
    case Other(t, _) => t
    case Unconvertible => true
  }

  /** Whether `${f}` yields a string rather than throwing. */
  predicate Converts(f: Field) {
    !f.Unconvertible?
  }

  /** `${f}` inside a template literal, for a value that converts. */
  function Show(f: Field): string
    requires Converts(f)
  {
    match f
    case Missing => "undefined"
    case Null => "null"
    case Text(s) => s
    case Other(_, shown) => shown
  }

  /** `a || b`: the first operand when it is truthy, the second otherwise. */
  function Or(a: Field, b: Field): (r: Field)
    ensures Truthy(r) <==> Truthy(a) || Truthy(b)
    ensures r == a || r == b
  {
    if Truthy(a) then a else b
  }

  /**
   * A destructuring default `{ x = d } = body`: the default replaces only an
   * absent key (`undefined`), not `null` or any other falsy value.
   */
  function WithDefault(f: Field, d: string): Field
  {
    if f.Missing? then Text(d) else f
  }

  /** The `taskType` cases the prompt templates switch on. */
  datatype TaskKind = Write | Debug | Explain | Refactor | Test | Convert | Custom

  /** `switch (taskType)`: cases compare with `===`, so only these exact strings select a template. */
  function ParseTask(f: Field): (k: TaskKind)
    ensures k != Custom ==> f == Text(TaskName(k))
  {
    match f
    case Text(s) =>
      if s == "write" then Write
      else if s == "debug" then Debug
      else if s == "explain" then Explain
      else if s == "refactor" then Refactor
      else if s == "test" then Test
      else if s == "convert" then Convert
      else Custom
    case _ => Custom
  }

  /** The case name that selects each template. */
  function TaskName(k: TaskKind): string {
    match k
    case Write => "write"
    case Debug => "debug"
    case Explain => "explain"
    case Refactor => "refactor"
    case Test => "test"
    case Convert => "convert"
    case Custom => "default"
  }

  /** Each named case is selected by its own name (the converse of `ParseTask`'s contract). */
  lemma ParseTaskName(k: TaskKind)
    requires k != Custom
    ensures ParseTask(Text(TaskName(k))) == k
  {
  }

  /** The three body properties both `/ask` handlers read. */
  datatype AskBody = AskBody(taskType: Field, codeSnippet: Field, instruction: Field)
}
