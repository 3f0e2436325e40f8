/** Small datatypes every other module of the model shares. */
module Common {

  datatype Option<+T> = None | Some(value: T)

  /** A value or the error that stands for the exception the program raises. */
  datatype Result<+T, +E> = Ok(value: T) | Err(error: E) {
    predicate IsFailure() {
      Err?
    }

    function PropagateFailure<U>(): (r: Result<U, E>)
      requires Err?
    {
      Err(error)
    }

    function Extract(): (r: T)
      requires Ok?
    {
      value
    }
  }

  /** A set that lies inside another one is no larger. */
  lemma SubsetSize<T>(small: set<T>, large: set<T>)
    requires small <= large
    ensures |small| <= |large|
  {
    if small != {} {
      var x :| x in small;
      SubsetSize(small - {x}, large - {x});
    }
  }

  /** The set of a list's elements. */
  function Members<T>(list: seq<T>): (r: set<T>) {
    set x | x in list
  }
}
