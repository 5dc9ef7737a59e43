/** Errors as the core sees them: strings, plus the operating system's ENOENT value. */
module Errors {
  import opened Text

  /** A Go `error`: either the distinguished syscall.ENOENT value or any other error,
      known only by its message. A nil error is the absence of an `Error`. */
  datatype Error = Enoent | Message(text: string)
  {
    /** What `err.Error()` returns. */
    function Text(): string
    {
      match this
      case Enoent => "no such file or directory"
      case Message(t) => t
    }
  }

  /** An optional value, as a Go pointer that may be nil. */
  datatype Option<+T> = None | Some(value: T)

  /** A value or the error that prevented it. */
  datatype Result<+T> = Ok(value: T) | Err(error: Error)
  {
    predicate IsFailure() { Err? }

    function PropagateFailure<U>(): Result<U>
      requires Err?
    {
      Err(error)
    }

    function Extract(): T
      requires Ok?
    {
      value
    }
  }

  /** `fmt.Errorf(prefix + "%w", inner)`: the message is the prefix followed by the inner message. */
  function Wrap(prefix: string, inner: Error): (e: Error)
    ensures e.Text() == prefix + inner.Text()
  {
    Message(prefix + inner.Text())
  }

  /** The substrings by which a failed conditional write (HTTP 412) is recognised. */
  const PreconditionMarkers: seq<string> :=
    ["PreconditionFailed", "412", "Precondition Failed", "conditional request failed"]

  /** The substrings by which a missing object is recognised. */
  const NotExistMarkers: seq<string> :=
    ["NoSuchKey", "NotFound", "404", "does not exist", "no such file or directory"]

  /** Some marker of the list occurs in the message. */
  function MentionsAny(message: string, markers: seq<string>): (r: bool)
    ensures r <==> exists j :: 0 <= j < |markers| && Contains(message, markers[j])
  {
    if markers == [] then false
    else Contains(message, markers[0]) || MentionsAny(message, markers[1..])
  }

  /** isPreconditionFailed: the error message mentions a precondition failure. */
  function IsPreconditionFailed(err: Error): (r: bool)
    ensures r <==> exists j :: 0 <= j < |PreconditionMarkers| && Contains(err.Text(), PreconditionMarkers[j])
    ensures Contains(err.Text(), "PreconditionFailed") ==> r
  {
    MentionsAny(err.Text(), PreconditionMarkers)
  }

  /** isNotExist: the error is ENOENT or its message says the object is missing. */
  function IsNotExist(err: Error): (r: bool)
    ensures err == Enoent ==> r
    ensures err != Enoent ==> (r <==> exists j :: 0 <= j < |NotExistMarkers| && Contains(err.Text(), NotExistMarkers[j]))
  {
    if err == Enoent then true else MentionsAny(err.Text(), NotExistMarkers)
  }

  /** Wrapping keeps every marker of the wrapped error, so a wrapped precondition
      failure is still classified as one. */
  lemma WrapKeepsPreconditionFailed(prefix: string, inner: Error)
    requires IsPreconditionFailed(inner)
    ensures IsPreconditionFailed(Wrap(prefix, inner))
  {
    var j :| 0 <= j < |PreconditionMarkers| && Contains(inner.Text(), PreconditionMarkers[j]);
    ContainsAfterPrefix(prefix, inner.Text(), PreconditionMarkers[j]);
  }

  /** Likewise for a missing object. */
  lemma WrapKeepsNotExist(prefix: string, inner: Error)
    requires IsNotExist(inner)
    ensures IsNotExist(Wrap(prefix, inner))
  {
    var j: int;
    if inner == Enoent {
      ContainsItself(inner.Text());
      j := 4;
    } else {
      j :| 0 <= j < |NotExistMarkers| && Contains(inner.Text(), NotExistMarkers[j]);
    }
    ContainsAfterPrefix(prefix, inner.Text(), NotExistMarkers[j]);
  }

  /** A message that mentions "404" anywhere is taken for a missing object. */
  lemma Mentions404(err: Error)
    requires err != Enoent && Contains(err.Text(), "404")
    ensures IsNotExist(err)
  {
    assert NotExistMarkers[2] == "404";
  }

  /** A message that starts with "PreconditionFailed", as the always-conflicting backend's
      does, is a precondition failure. */
  lemma PreconditionFailedPrefixRecognised(rest: string)
    ensures IsPreconditionFailed(Message("PreconditionFailed" + rest))
  {
    ContainsPrefix("PreconditionFailed", rest);
  }
}
