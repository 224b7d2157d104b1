/** Failure-compatible results, and the errors the template build throws. */
module Errors {

  datatype Option<T> = None | Some(value: T)

  /** The exceptions the build can raise, with the data each message names. */
  datatype BuildError =
      /** A `<component>` whose `key` attribute is missing or empty. */
    | UnknownKey(from: string)
      /** Neither lookup root holds a directory for the component name. */
    | ComponentNotFound(name: string, from: string)
      /** The component file could not be read (the directory exists, the file does not). */
    | ReadFailed(path: string)
      /** A token at a boundary starts with `$`: `word.match(/^\w+/)` is null and indexing it throws. */
    | NullWordMatch(token: string)
      /** The model's own bound: a chain of component references deeper than the fuel. The code
          recurses without a bound, so a reference cycle there ends only when the host runs out
          of stack. */
    | DepthExceeded

  datatype Result<T> = Ok(value: T) | Err(error: BuildError) {
    predicate IsFailure() { Err? }

    function PropagateFailure<U>(): Result<U>
      requires Err?
    {
      Err(error)
    }

    function Extract(): T
      requires Ok?
    {
      value
    }
  }

  /** `done` in front of the outcome of the rest of a loop over a sequence. */
  function Prepend<T>(done: seq<T>, r: Result<seq<T>>): Result<seq<T>> {
    match r
    case Ok(rest) => Ok(done + rest)
    case Err(e) => Err(e)
  }

  lemma PrependEmpty<T>(r: Result<seq<T>>)
    ensures Prepend([], r) == r
  {
    if r.Ok? {
      assert [] + r.value == r.value;
    }
  }

  lemma PrependStep<T>(done: seq<T>, x: T, r: Result<seq<T>>)
    ensures Prepend(done + [x], r) == Prepend(done, if r.Ok? then Ok([x] + r.value) else Err(r.error))
  {
    if r.Ok? {
      assert done + [x] + r.value == done + ([x] + r.value);
    }
  }

  lemma PrependPrepend<T>(a: seq<T>, b: seq<T>, r: Result<seq<T>>)
    ensures Prepend(a, Prepend(b, r)) == Prepend(a + b, r)
  {
    if r.Ok? {
      assert a + (b + r.value) == a + b + r.value;
    }
  }

  /** The message text of each error. The build raises the first two itself: both end with the
      referencing file, and the second names the missing component between double quotes. The
      other three stand for what the host runtime reports (a failed read, indexing `null`, stack
      exhaustion); their texts are not part of the build code. */
  function Message(e: BuildError): (msg: string)
    ensures e.UnknownKey? || e.ComponentNotFound? ==>
              |e.from| <= |msg| && msg[|msg| - |e.from|..] == e.from
    ensures e.ComponentNotFound? ==>
              26 + |e.name| <= |msg| && msg[24] == '"' && msg[25..25 + |e.name|] == e.name && msg[25 + |e.name|] == '"'

  {
    match e
    case UnknownKey(from) => "Unknown component key in " + from
    case ComponentNotFound(name, from) => "Can not find components \"" + name + "\" in " + from
    case ReadFailed(path) => "ENOENT: no such file or directory, open '" + path + "'"
    case NullWordMatch(token) => "Cannot read property '0' of null"
    case DepthExceeded => "Maximum call stack size exceeded"
  }
}
