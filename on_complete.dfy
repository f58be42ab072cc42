/**
 * The completion variant of the reactive stream `Signal` type
 * (org.springframework.reactive.util.OnComplete).
 *
 * A `Signal` answers three tag queries (`isComplete`, `isOnNext`,
 * `isOnError`) and has two payload accessors (`next`, `error`). The
 * completion signal carries no payload: its accessors always throw
 * `IllegalStateException`, and one shared instance serves every stream.
 */
module ReactiveUtil {
  import opened Results

  /** The only exception the completion signal throws: an `IllegalStateException` without message. */
  datatype StateError = IllegalStateException

  /**
   * The end of a stream. The Java class declares no instance fields and a
   * private constructor, so a single value without fields is all there is.
   * The class's element type `T` occurs only in the return type of `next()`,
   * so it is the type parameter of `Next`; the raw-typed shared instance
   * serves every `T`.
   */
  datatype OnComplete = OnComplete {

    /** The shared instance (`INSTANCE`). */
    static const Instance: OnComplete := OnComplete

    /** A completion signal is always a completion. */
    function IsComplete(): (b: bool)
      ensures b
    {
      true
    }

    /** A completion signal is never a next-value signal. */
    function IsOnNext(): (b: bool)
      ensures !b
    {
      false
    }

    /** Reading a next value from a completion signal always throws `IllegalStateException`. */
    function Next<T>(): (r: Result<T, StateError>)
      ensures r.Failure? && r.error == IllegalStateException
    {
      Failure(IllegalStateException)
    }

    /** A completion signal is never an error signal. */
    function IsOnError(): (b: bool)
      ensures !b
    {
      false
    }

    /**
     * Reading an error cause from a completion signal always throws
     * `IllegalStateException`. `Cause` stands for `java.lang.Throwable`.
     */
    function Error<Cause>(): (r: Result<Cause, StateError>)
      ensures r.Failure? && r.error == IllegalStateException
    {
      Failure(IllegalStateException)
    }
  }

  /** The number of flags that are set. */
  function CountTrue(flags: seq<bool>): (n: nat)
    ensures n == 0 <==> forall i :: 0 <= i < |flags| ==> !flags[i]
  {
    if flags == [] then 0
    else
      (if flags[0] then 1 else 0) + CountTrue(flags[1..])
  }

  /**
   * The documented contract of the `Signal` interface (its source text is
   * not part of this model), over the five answers one signal
   * gives: exactly one of the three tags holds; `next()` returns a value
   * exactly when the signal is a next-value signal and `error()` a cause
   * exactly when it is an error signal; a wrong-variant access throws
   * `IllegalStateException`.
   */
  predicate HonoursSignalContract<T, Cause>(
    isComplete: bool, isOnNext: bool, next: Result<T, StateError>,
    isOnError: bool, error: Result<Cause, StateError>)
  {
    && CountTrue([isComplete, isOnNext, isOnError]) == 1
    && (next.Success? <==> isOnNext)
    && (error.Success? <==> isOnError)
    && (next.Failure? ==> next.error == IllegalStateException)
    && (error.Failure? ==> error.error == IllegalStateException)
  }

  /** The completion signal keeps the `Signal` contract, whatever `T` and `Cause` are. */
  lemma OnCompleteHonoursSignalContract<T, Cause>(s: OnComplete)
    ensures HonoursSignalContract(s.IsComplete(), s.IsOnNext(), s.Next<T>(), s.IsOnError(), s.Error<Cause>())
  {
  }

  /**
   * The `Signal` contract leaves a completion signal no freedom: any answers
   * that keep the contract and say `isComplete` are exactly the answers the
   * completion signal gives.
   */
  lemma {:induction false} CompletionAnswersForced<T, Cause>(
    isComplete: bool, isOnNext: bool, next: Result<T, StateError>,
    isOnError: bool, error: Result<Cause, StateError>)
    requires HonoursSignalContract(isComplete, isOnNext, next, isOnError, error)
    requires isComplete
    ensures isOnNext == OnComplete.Instance.IsOnNext()
    ensures isOnError == OnComplete.Instance.IsOnError()
    ensures next == OnComplete.Instance.Next<T>()
    ensures error == OnComplete.Instance.Error<Cause>()
  {
    var flags := [isComplete, isOnNext, isOnError];
    // isComplete uses up the single tag, so isOnNext and isOnError count zero
    assert CountTrue(flags[1..]) == 0;
  }

  /** There is one completion signal: every value of the type is the shared instance. */
  lemma SingleInstance(a: OnComplete, b: OnComplete)
    ensures a == OnComplete.Instance && a == b
  {
  }

  /**
   * The completion signal holds no per-element state: its answers do not
   * depend on the element type or on the cause type.
   */
  lemma AnswersIndependentOfTypeArguments<A, B, CauseA, CauseB>(s: OnComplete)
    ensures s.Next<A>().error == s.Next<B>().error
    ensures s.Error<CauseA>().error == s.Error<CauseB>().error
    ensures s.Next<A>().error == s.Error<CauseA>().error
  {
  }
}
