/** Ruby's dynamic values as far as the library inspects them, the duck-typed
    conversions it asks of them (#to_str, #to_i, #each, #to_s), and the
    exceptions it raises. Ruby 1.9 semantics: a String has no #each, a Symbol
    has no #to_i, and nil#to_i is 0. */
module Values {
  import opened Numerals

  datatype Option<+T> = None | Some(value: T) {
    /** Ruby's `x || default` when nil is the only falsy value x can take. */
    function GetOr(default: T): T { if Some? then value else default }
  }

  /** The exception classes the library raises; Raised stands for any other
      exception a collaborator (a converter, a callback) lets escape. */
  datatype ErrorKind = TypeError | ArgumentError | NotImplementedError | Raised(className: string)

  /** What was wrong: one case per distinct message the library raises. */
  datatype Reason =
    | NotAnArray | WrongArity
    | MethodNotString | UriNotString
    | HeadersNotEnumerable | HeaderNameNotString | HeaderValueNotString
    | BodyIsString | BodyNotEnumerable
    | StatusNotInteger
    | MissingMethod(name: string)
    | NotAConnection
    | HostNotString | PortNotInteger | InvalidPort
    | UnknownMethod(methodName: string) | UnknownStatus(status: int)
    | WrongNativeClass(expected: string)
    | ChunkNotString
    | NoClientImplementation
    | Message(text: string)

  datatype Error = Error(kind: ErrorKind, reason: Reason)

  /** A computation that either returns a value or raises. */
  datatype Result<+T> = Ok(value: T) | Err(error: Error) {
    predicate IsFailure() { Err? }
    function PropagateFailure<U>(): Result<U> requires Err? { Err(error) }
    function Extract(): T requires Ok? { value }
  }

  function TypeErr<T>(reason: Reason): Result<T> { Err(Error(TypeError, reason)) }

  /** A Ruby value. An Obj is any other object, described by its class name
      and by what it answers to #to_str, #to_i and #each (None: it does not
      respond). A Hash is an Obj whose #each yields two-element arrays. */
  datatype Value =
    | Str(s: string)
    | Sym(name: string)
    | Int(i: int)
    | Bool(b: bool)
    | Nil
    | Arr(elems: seq<Value>)
    | Obj(className: string, toStr: Option<string>, toI: Option<Value>, items: Option<seq<Value>>)

  /** Only nil and false are falsy. */
  predicate Truthy(v: Value) { !(v.Nil? || v == Bool(false)) }

  /** respond_to?(:to_str) */
  predicate RespondsToStr(v: Value) { v.Str? || (v.Obj? && v.toStr.Some?) }

  /** #to_str */
  function ToStr(v: Value): string
    requires RespondsToStr(v)
  {
    if v.Str? then v.s else v.toStr.value
  }

  /** respond_to?(:to_i) */
  predicate RespondsToI(v: Value) { v.Str? || v.Int? || v.Nil? || (v.Obj? && v.toI.Some?) }

  /** #to_i; an arbitrary object may answer it with something that is not an Integer. */
  function ToI(v: Value): Value
    requires RespondsToI(v)
  {
    match v
    case Str(s) => Int(StringToI(s))
    case Int(_) => v
    case Nil => Int(0)
    case Obj(_, _, toI, _) => toI.value
  }

  /** respond_to?(:each) */
  predicate RespondsToEach(v: Value) { v.Arr? || (v.Obj? && v.items.Some?) }

  /** What #each yields, in order. */
  function Each(v: Value): seq<Value>
    requires RespondsToEach(v)
  {
    if v.Arr? then v.elems else v.items.value
  }

  /** The two block parameters `|a, b|` bound to one yielded item: an array
      is spread over them (missing entries are nil), anything else binds to
      the first and nil to the second. */
  function BlockPair(item: Value): (Value, Value)
  {
    if item.Arr? then
      (if |item.elems| > 0 then item.elems[0] else Nil,
       if |item.elems| > 1 then item.elems[1] else Nil)
    else (item, Nil)
  }

  /** #to_s */
  function ToS(v: Value): string
  {
    match v
    case Str(s) => s
    case Sym(name) => name
    case Int(i) => IntToString(i)
    case Bool(b) => if b then "true" else "false"
    case Nil => ""
    case Arr(_) => Inspect(v)
    case Obj(className, _, _, _) => "#<" + className + ">"
  }

  /** #inspect, which Array#to_s returns; string escapes are not rendered. */
  function Inspect(v: Value): string
  {
    match v
    case Str(s) => "\"" + s + "\""
    case Sym(name) => ":" + name
    case Int(i) => IntToString(i)
    case Bool(b) => if b then "true" else "false"
    case Nil => "nil"
    case Arr(elems) => "[" + InspectJoined(elems) + "]"
    case Obj(className, _, _, _) => "#<" + className + ">"
  }

  function InspectJoined(elems: seq<Value>): string
    decreases elems, 0
  {
    if elems == [] then ""
    else if |elems| == 1 then Inspect(elems[0])
    else Inspect(elems[0]) + ", " + InspectJoined(elems[1..])
  }

  /** The array Ruby would build for a header list of string pairs. */
  function PairsValue(pairs: seq<(string, string)>): (v: Value)
    ensures v.Arr? && |v.elems| == |pairs|
  {
    Arr(seq(|pairs|, i requires 0 <= i < |pairs| => Arr([Str(pairs[i].0), Str(pairs[i].1)])))
  }
}
