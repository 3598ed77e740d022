/** The single-task order book collector of backend/scripts/l2_collector.py. */
module L2Collector {
  import opened Chunks

  /** What one turn of the loop meets: the job status seen by the periodic check, and the
      reply of the websocket. `stored` is false when writing a chunk file raises. */
  datatype Reply<R> = Message(row: R, stored: bool) | Timeout | Broken
  datatype Turn<R> = Turn(cancelled: bool, reply: Reply<R>)

  datatype Ending = Completed | Cancelled | Failed | StillWaiting

  /** The rows of all messages, in the order they arrive. */
  function Messages<R>(turns: seq<Turn<R>>): seq<R> {
    if turns == [] then []
    else Messages(turns[..|turns| - 1]) +
         (match turns[|turns| - 1].reply case Message(row, _) => [row] case _ => [])
  }

  /** With `n` rows collected, the turn finds the job cancelled; only every hundredth row looks. */
  predicate CancelledAt<R>(n: nat, hasJob: bool, turn: Turn<R>) {
    hasJob && turn.cancelled && exists k :: 0 <= k <= n && 100 * k == n
  }

  /** With `n` rows collected before it, the turn's reply ends the task: the connection breaks,
      or a row that completes a chunk or reaches the target cannot be written. */
  predicate FailsAt<R>(n: nat, target: int, size: nat, turn: Turn<R>)
    requires size >= 1
  {
    turn.reply.Broken? || (turn.reply.Message? && !turn.reply.stored && ((n + 1) % size == 0 || n + 1 >= target))
  }

  /** The first turns are used up one by one: none of them ends the task but perhaps the last. */
  predicate Goes<R>(target: int, size: nat, hasJob: bool, turns: seq<Turn<R>>, used: nat)
    requires size >= 1 && used <= |turns|
  {
    forall k :: 0 <= k < used ==>
      var n := |Messages(turns[..k])|;
      n < target && !CancelledAt(n, hasJob, turns[k]) && (k < used - 1 ==> !FailsAt(n, target, size, turns[k]))
  }

  lemma {:induction false} NextRemainder(n: nat, size: nat)
    requires size >= 1
    ensures (n + 1) % size == if n % size + 1 == size then 0 else n % size + 1
  {
    var q, r := n / size, n % size;
    if r + 1 == size {
      assert n + 1 == (q + 1) * size;
      DivUnique(n + 1, q + 1, size);
    } else {
      DivUnique(n + 1, q, size);
    }
  }

  lemma {:induction false} Hundreds<R>(n: nat, hasJob: bool, turn: Turn<R>)
    ensures CancelledAt(n, hasJob, turn) <==> n % 100 == 0 && hasJob && turn.cancelled
  {
    if n % 100 == 0 {
      assert 100 * (n / 100) == n;
    }
  }

  lemma {:induction false} GoesOn<R>(target: int, size: nat, hasJob: bool, turns: seq<Turn<R>>, used: nat)
    requires size >= 1 && used < |turns| && Goes(target, size, hasJob, turns, used)
    requires used > 0 ==> !FailsAt(|Messages(turns[..used - 1])|, target, size, turns[used - 1])
    requires var n := |Messages(turns[..used])|; n < target && !CancelledAt(n, hasJob, turns[used])
    ensures Goes(target, size, hasJob, turns, used + 1)
  {
    hide FailsAt, CancelledAt, Messages;
  }

  lemma {:induction false} MessagesSnoc<R>(turns: seq<Turn<R>>, used: nat)
    requires used < |turns|
    ensures Messages(turns[..used + 1])
         == Messages(turns[..used]) + (match turns[used].reply case Message(row, _) => [row] case _ => [])
  {
    assert turns[..used + 1][..used] == turns[..used];
  }

  lemma {:induction false} LayoutAppend<R>(chunks: seq<seq<R>>, buffer: seq<R>, rows: seq<R>, size: nat, target: int,
                                           row: R)
    requires Layout(chunks, buffer, rows, size, target) && Full(chunks, size)
    ensures Layout(chunks, buffer + [row], rows + [row], size, target)
  {
    assert Concat(chunks) + (buffer + [row]) == Concat(chunks) + buffer + [row];
  }

  lemma {:induction false} LayoutSave<R>(chunks: seq<seq<R>>, buffer: seq<R>, rows: seq<R>, size: nat, target: int)
    requires Layout(chunks, buffer, rows, size, target) && Full(chunks, size) && 0 < |buffer| <= size
    requires |buffer| == size || |rows| >= target
    ensures Layout(chunks + [buffer], [], rows, size, target)
    ensures |buffer| == size ==> Full(chunks + [buffer], size)
    ensures Concat(chunks + [buffer]) == rows
  {
    assert (chunks + [buffer])[..|chunks|] == chunks;
  }

  /** Why the task ended, by the turns it used. */
  predicate EndsAs<R>(target: int, size: nat, hasJob: bool, turns: seq<Turn<R>>, used: nat, ending: Ending)
    requires size >= 1 && used <= |turns|
  {
    var n := |Messages(turns[..used])|;
    && (ending == Failed <==> used > 0 && FailsAt(|Messages(turns[..used - 1])|, target, size, turns[used - 1]))
    && (ending == Completed <==> ending != Failed && n >= target)
    && (ending == Cancelled <==>
          ending != Failed && n < target && used < |turns| && CancelledAt(n, hasJob, turns[used]))
    && (ending == StillWaiting ==> used == |turns|)
  }

  /** collect_l2_data, with the websocket and the job table as the script `turns`; a script
      that runs out leaves the task waiting. `rows` is everything that was ever appended. */
  method Collect<R>(target: int, size: nat, hasJob: bool, turns: seq<Turn<R>>)
    returns (chunks: seq<seq<R>>, buffer: seq<R>, ending: Ending, rows: seq<R>, used: nat)
    requires size >= 1
    ensures used <= |turns| && rows == Messages(turns[..used]) && Goes(target, size, hasJob, turns, used)
    ensures Layout(chunks, buffer, rows, size, target)
    ensures |buffer| <= size && (target >= 0 ==> |rows| <= target)
    ensures ending == Completed ==> buffer == [] && Concat(chunks) == rows && (target >= 0 ==> |rows| == target)
    ensures EndsAs(target, size, hasJob, turns, used, ending)
    ensures ending != Completed ==> Full(chunks, size) && |rows| <= target
  {
    hide Layout, Messages, Goes, CancelledAt, FailsAt;
    chunks, buffer, rows, used := [], [], [], 0;
    ending := Completed;
    var totalCollected := 0;
    Start(target, size, hasJob, turns);
    while totalCollected < target
      invariant used <= |turns| && rows == Messages(turns[..used]) && Goes(target, size, hasJob, turns, used)
      invariant used > 0 ==> !FailsAt(|Messages(turns[..used - 1])|, target, size, turns[used - 1])
      invariant totalCollected == |rows| && (target >= 0 ==> |rows| <= target)
      invariant Layout(chunks, buffer, rows, size, target)
      invariant |buffer| < size && (totalCollected < target ==> |buffer| == totalCollected % size)
      invariant totalCollected < target ==> Full(chunks, size)
      invariant totalCollected >= target ==> buffer == [] && Concat(chunks) == rows
      decreases |turns| - used
    {
      if used == |turns| {
        ending := StillWaiting;
        return;
      }
      var turn := turns[used];
      Hundreds(totalCollected, hasJob, turn);
      if totalCollected % 100 == 0 && hasJob && turn.cancelled {
        ending := Cancelled;
        return;
      }
      GoesOn(target, size, hasJob, turns, used);
      MessagesSnoc(turns, used);
      FailsIff(totalCollected, target, size, turn, buffer);
      used := used + 1;
      match turn.reply {
        case Timeout =>
        case Broken =>
          ending := Failed;
          return;
        case Message(row, stored) =>
          LayoutAppend(chunks, buffer, rows, size, target, row);
          rows := rows + [row];
          buffer := buffer + [row];
          totalCollected := totalCollected + 1;
          if |buffer| >= size || totalCollected >= target {
            if !stored {
              ending := Failed;
              return;
            }
            LayoutSave(chunks, buffer, rows, size, target);
            chunks := chunks + [buffer];
            buffer := [];
          }
      }
    }
  }

  lemma {:induction false} Start<R>(target: int, size: nat, hasJob: bool, turns: seq<Turn<R>>)
    requires size >= 1
    ensures Messages(turns[..0]) == [] && Goes(target, size, hasJob, turns, 0)
    ensures Layout([], [], Messages(turns[..0]), size, target) && Concat<R>([]) == []
  {
  }

  /** A turn's end by what the buffer holds before it. */
  lemma {:induction false} FailsIff<R>(n: nat, target: int, size: nat, turn: Turn<R>, buffer: seq<R>)
    requires size >= 1 && |buffer| < size && |buffer| == n % size
    ensures FailsAt(n, target, size, turn) <==>
              turn.reply.Broken?
              || (turn.reply.Message? && !turn.reply.stored && (|buffer| + 1 >= size || n + 1 >= target))
    ensures (n + 1) % size == if |buffer| + 1 == size then 0 else |buffer| + 1
  {
    NextRemainder(n, size);
  }
}
