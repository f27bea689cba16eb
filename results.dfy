/** Error values and the program's generic `Res[T]` result record.

    In the Go program `Res[T]` is a struct that holds a value and an error
    side by side, and a nil error marks success. It is modelled here as that
    same pair, and the tagged reading of it that every consumer applies
    (check the error first) is given as `Classify`. */
module Results {

  datatype Option<T> = None | Some(value: T)

  /** A Go `error`: only its identity matters to this program. */
  datatype Error = Error(message: string)

  /** `Res[T]`: a value `ok` and an error `err`; `err == None` is Go's nil. */
  datatype Res<T> = Res(ok: T, err: Option<Error>)

  /** `Ok(v)`: the value with a nil error. */
  function Ok<T>(v: T): Res<T>
  {
    Res(v, None)
  }

  /** `Err[T](e)`: the error with the zero value of `T`. Go supplies the zero
      value itself; here it is passed in as `zero`. */
  function Err<T>(zero: T, e: Error): Res<T>
  {
    Res(zero, Some(e))
  }

  /** The tagged reading of a `Res`: success with a value, or failure with an error. */
  datatype Tagged<T> = Success(value: T) | Failure(error: Error)

  /** How a consumer reads a `Res`: a non-nil error wins over any value. */
  function Classify<T>(r: Res<T>): (o: Tagged<T>)
    ensures o.Failure? <==> r.err.Some?
    ensures o.Success? ==> o.value == r.ok
    ensures o.Failure? ==> o.error == r.err.value
  {
    if r.err.Some? then Failure(r.err.value) else Success(r.ok)
  }

  /** Builds the `Res` a tagged value stands for, with the constructors. */
  function FromTagged<T>(zero: T, o: Tagged<T>): Res<T>
  {
    match o
    case Success(v) => Ok(v)
    case Failure(e) => Err(zero, e)
  }

  /** A `Res` such as `Ok` and `Err` build: a failed one carries the zero value. */
  ghost predicate Canonical<T>(zero: T, r: Res<T>)
  {
    r.err.Some? ==> r.ok == zero
  }

  /** `Ok(v)` has a nil error and the value `v`; `Err(e)` has the error `e`
      and the zero value; both are canonical and read back as what they were
      built from. */
  lemma {:induction false} Constructors<T>(zero: T, v: T, e: Error)
    ensures Ok(v).err == None && Ok(v).ok == v
    ensures Err(zero, e).err == Some(e) && Err(zero, e).ok == zero
    ensures Canonical(zero, Ok(v)) && Canonical(zero, Err(zero, e))
    ensures Classify(Ok(v)) == Success(v) && Classify(Err(zero, e)) == Failure(e)
    ensures Ok(v) != Err(zero, e)
  {
  }

  /** The pair and the tagged reading are interchangeable exactly on the
      canonical pairs: tagging undoes building, and building undoes tagging
      if and only if the pair is canonical. */
  lemma {:induction false} TaggedRoundTrip<T>(zero: T, o: Tagged<T>, r: Res<T>)
    ensures Classify(FromTagged(zero, o)) == o
    ensures FromTagged(zero, Classify(r)) == r <==> Canonical(zero, r)
  {
  }
}
