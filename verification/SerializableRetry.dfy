/** Bounded retries of a contended operation. */
module SerializableRetry {
  import opened Wrappers
  import opened StateMachine

  const UNREACHABLE := Other("Unreachable serializable retry state.")

  /** The attempts a caller asks for: a number, or what is not one. */
  datatype Attempts = Finite(count: real) | NotANumber

  const SERIALIZABLE_RETRIES: Attempts := Finite(3.0)

  /** Aborts of a transaction as the database client reports them, also for raw queries. */
  predicate IsTransactionConflict(error: Error) {
    error.Database? && (error.code == "P2034"
                        || (error.code == "P2010" && (error.metaCode == "40001" || error.metaCode == "40P01")))
  }

  predicate IsSerializableContention(error: Error) {
    error.Database? && (error.code == "P2034" || error.code == "P2002")
  }

  predicate Retryable(error: Error, isContention: Error -> bool) {
    isContention(error) || IsSerializableContention(error)
  }

  function MaxAttempts(attempts: Attempts): Attempts {
    match attempts
    case Finite(count) => Finite(if count < 1.0 then 1.0 else count)
    case NotANumber => NotANumber
  }

  /** Comparisons with what is not a number are false. */
  predicate Allows(max: Attempts, attempt: nat) {
    max.Finite? && attempt as real <= max.count
  }

  predicate IsLast(max: Attempts, attempt: nat) {
    max.Finite? && attempt as real == max.count
  }

  /** An attempt whose outcome is not tried again, whatever its number. */
  predicate Final<T>(outcome: Result<T, Error>, isContention: Error -> bool) {
    outcome.Ok? || !Retryable(outcome.error, isContention)
  }

  /**
   * The outcome of the retries: how many calls there were, what was delivered, and whether the
   * statement after the loop delivered it. An attempt that is not final is followed by another
   * one while the number of attempts allows it.
   */
  ghost predicate Retried<T>(
    operation: nat -> Result<T, Error>, isContention: Error -> bool, message: string, attempts: Attempts,
    r: Result<T, Error>, calls: nat, fellThrough: bool)
  {
    var max := MaxAttempts(attempts);
    && (calls > 0 ==> Allows(max, calls))
    && (forall k :: 1 <= k < calls ==> !Final(operation(k), isContention))
    && (if calls > 0 && Final(operation(calls), isContention) then r == operation(calls) && !fellThrough
        else if IsLast(max, calls) then r == Err(Conflict(message)) && !fellThrough
        else !Allows(max, calls + 1) && r == Err(UNREACHABLE) && fellThrough)
  }

  /**
   * Runs the operation until an attempt is final or the attempts are used up, waiting longer each
   * time. The operation's outcome may differ from attempt to attempt.
   */
  method WithSerializableRetry<T>(
    operation: nat -> Result<T, Error>, isContention: Error -> bool, message: string,
    backoffMs: real, attempts: Attempts)
    returns (r: Result<T, Error>, calls: nat, waits: seq<real>, fellThrough: bool)
    ensures Retried(operation, isContention, message, attempts, r, calls, fellThrough)
    ensures forall k :: 0 <= k < |waits| ==> waits[k] == backoffMs * (k + 1) as real
    ensures |waits| == if backoffMs <= 0.0 then 0 else if fellThrough then calls else calls - 1
  {
    var maxAttempts := MaxAttempts(attempts);
    var attempt := 1;
    calls, waits, fellThrough := 0, [], false;
    while Allows(maxAttempts, attempt)
      invariant attempt == calls + 1 && (calls > 0 ==> Allows(maxAttempts, calls))
      invariant forall k :: 1 <= k <= calls ==> !Final(operation(k), isContention)
      invariant !IsLast(maxAttempts, calls)
      invariant forall k :: 0 <= k < |waits| ==> waits[k] == backoffMs * (k + 1) as real
      invariant |waits| == if backoffMs <= 0.0 then 0 else calls
      decreases if maxAttempts.Finite? then maxAttempts.count.Floor - attempt else 0
    {
      var outcome := operation(attempt);
      calls := attempt;
      match outcome {
        case Ok(_) =>
          return outcome, calls, waits, false;
        case Err(error) =>
          var retryable := Retryable(error, isContention);
          if !retryable || IsLast(maxAttempts, attempt) {
            if retryable {
              return Err(Conflict(message)), calls, waits, false;
            }
            return outcome, calls, waits, false;
          }
          if backoffMs > 0.0 {
            waits := waits + [backoffMs * attempt as real];
          }
      }
      attempt := attempt + 1;
    }
    r, fellThrough := Err(UNREACHABLE), true;
  }

  /**
   * The statement after the loop is reached exactly when the attempts are not a number, or are
   * more than one but not whole and every attempt they allow fails retryably; never for whole
   * numbers.
   */
  lemma FinalThrowExactly<T>(
    operation: nat -> Result<T, Error>, isContention: Error -> bool, message: string, attempts: Attempts,
    r: Result<T, Error>, calls: nat, fellThrough: bool)
    requires Retried(operation, isContention, message, attempts, r, calls, fellThrough)
    ensures fellThrough
       <==> attempts.NotANumber?
            || (attempts.count > 1.0 && attempts.count != attempts.count.Floor as real
                && forall k :: 1 <= k <= attempts.count.Floor ==> !Final(operation(k), isContention))
  {
    if attempts.Finite? {
      var max := MaxAttempts(attempts).count;
      assert max.Floor as real <= max < max.Floor as real + 1.0;
      assert Allows(MaxAttempts(attempts), 1);
      if fellThrough {
        assert calls == max.Floor;
      }
    }
  }

  /**
   * With two and a half attempts that all conflict, the statement is reached after two calls; with
   * attempts that are not a number, before the first one.
   */
  lemma FinalThrowReached<T>(
    operation: nat -> Result<T, Error>, isContention: Error -> bool, message: string, attempts: Attempts,
    r: Result<T, Error>, calls: nat, fellThrough: bool)
    requires Retried(operation, isContention, message, attempts, r, calls, fellThrough)
    requires attempts == NotANumber
             || (attempts == Finite(2.5) && forall k :: operation(k) == Err(Database("P2034", "")))
    ensures fellThrough && r == Err(UNREACHABLE) && calls == if attempts == NotANumber then 0 else 2
  {
    FinalThrowExactly(operation, isContention, message, attempts, r, calls, fellThrough);
    if attempts.Finite? {
      assert forall k :: !Final(operation(k), isContention);
      assert Allows(MaxAttempts(attempts), 2) && !Allows(MaxAttempts(attempts), 3);
    }
  }

  /**
   * With the default attempts the operation is called at most three times and the last statement
   * is not reached; a caller who counts database aborts as contention never gets one to see.
   */
  lemma AbortsStayInside<T>(
    operation: nat -> Result<T, Error>, message: string, r: Result<T, Error>, calls: nat, fellThrough: bool)
    requires Retried(operation, IsTransactionConflict, message, SERIALIZABLE_RETRIES, r, calls, fellThrough)
    ensures 1 <= calls <= 3 && !fellThrough
    ensures r.Err? ==> !IsTransactionConflict(r.error) && !IsSerializableContention(r.error)
  {
    FinalThrowExactly(operation, IsTransactionConflict, message, SERIALIZABLE_RETRIES, r, calls, fellThrough);
    assert (3.0).Floor == 3;
  }

  /** A database error that is tried again by the caller's choice of contention, by its code. */
  predicate TriedAgain(error: Error, countsAborts: bool) {
    error.Database?
    && (error.code == "P2034" || error.code == "P2002"
        || (countsAborts && error.code == "P2010" && (error.metaCode == "40001" || error.metaCode == "40P01")))
  }

  /**
   * There is another attempt after the k-th exactly when one more is allowed and the first k all
   * failed with a transaction conflict or a unique violation, or, for a caller that counts
   * aborts, with a raw query that was aborted for serialization or deadlock.
   */
  lemma AnotherAttemptExactly<T>(
    operation: nat -> Result<T, Error>, countsAborts: bool, message: string, attempts: Attempts,
    r: Result<T, Error>, calls: nat, fellThrough: bool, k: nat)
    requires Retried(operation, if countsAborts then IsTransactionConflict else (e: Error) => false,
                     message, attempts, r, calls, fellThrough)
    requires k > 0
    ensures calls > k
       <==> attempts.Finite? && (k + 1) as real <= attempts.count
            && forall j :: 1 <= j <= k ==> operation(j).Err? && TriedAgain(operation(j).error, countsAborts)
  {
    var isContention := if countsAborts then IsTransactionConflict else (e: Error) => false;
    assert forall j: nat ::
      Final(operation(j), isContention) == !(operation(j).Err? && TriedAgain(operation(j).error, countsAborts));
    if attempts.Finite? {
      assert Allows(MaxAttempts(attempts), k + 1) <==> (k + 1) as real <= attempts.count;
    }
  }

  /**
   * What is delivered: the outcome of the last call when it returned or failed for good; when it
   * failed retryably and was the last one allowed, a conflict with the caller's message, and else
   * the error of the last statement.
   */
  lemma DeliveredExactly<T>(
    operation: nat -> Result<T, Error>, isContention: Error -> bool, message: string, attempts: Attempts,
    r: Result<T, Error>, calls: nat, fellThrough: bool)
    requires Retried(operation, isContention, message, attempts, r, calls, fellThrough)
    ensures r.Ok? ==> calls > 0 && operation(calls) == r
    ensures calls > 0 && operation(calls).Ok? ==> r == operation(calls)
    ensures calls > 0 && operation(calls).Err? && !fellThrough ==>
      r == if isContention(operation(calls).error)
              || (operation(calls).error.Database? && operation(calls).error.code in {"P2034", "P2002"})
           then Err(Conflict(message)) else operation(calls)
    ensures fellThrough ==> r == Err(Other("Unreachable serializable retry state."))
  {
  }
}
