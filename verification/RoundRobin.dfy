/** Accepted connections are handed to the loops in turn
    (src/Server/EventLoopThreadPool.cpp:28-45, src/Server/Server.cpp:63-93). */
module RoundRobin {

  class EventLoopThreadPool {
    const threadNum: nat
    var nextLoop: nat
    var queues: seq<seq<int>>  // the Init callbacks queued on each loop, by descriptor

    constructor (threadNum: nat)
      ensures this.threadNum == threadNum && nextLoop == 0 && queues == []
    {
      this.threadNum, nextLoop, queues := threadNum, 0, [];
    }

    ghost predicate Valid()
      reads this
    {
      0 < threadNum == |queues| && nextLoop < threadNum
    }

    /** One loop for each thread. */
    method Start()
      requires 0 < threadNum && nextLoop == 0 && queues == []
      modifies this
      ensures Valid() && nextLoop == 0
      ensures forall j :: 0 <= j < threadNum ==> queues[j] == []
    {
      for i := 0 to threadNum
        invariant |queues| == i && nextLoop == 0
        invariant forall j :: 0 <= j < i ==> queues[j] == []
      {
        queues := queues + [[]];
      }
    }

    method GetNextLoop() returns (loop: nat)
      requires Valid()
      modifies `nextLoop
      ensures Valid() && loop == old(nextLoop) && nextLoop == Turn(old(nextLoop) + 1, threadNum)
    {
      loop := nextLoop;
      nextLoop := (nextLoop + 1) % threadNum;
    }

    /** The accept loop: `answers` is what accept returns from call to call, and the loop ends at
        the first answer that is not positive. */
    method HandleNewConn(answers: seq<int>)
      requires Valid()
      modifies this
      ensures Valid()
      ensures var fds := Accepted(answers);
              && nextLoop == Turn(old(nextLoop) + |fds|, threadNum)
              && forall j :: 0 <= j < threadNum ==>
                   queues[j] == old(queues)[j] + Share(fds, old(nextLoop), j, threadNum)
    {
      var i := 0;
      StartsInRange(nextLoop, threadNum);
      hide Turn;
      ghost var fds := Accepted(answers);
      assert forall j :: 0 <= j < threadNum ==>
        Share(fds[..0], old(nextLoop), j, threadNum) == [];
      while i < |answers| && answers[i] > 0
        invariant 0 <= i <= |fds| && Valid() && nextLoop == Turn(old(nextLoop) + i, threadNum)
        invariant forall j :: 0 <= j < threadNum ==>
          queues[j] == old(queues)[j] + Share(fds[..i], old(nextLoop), j, threadNum)
      {
        AcceptedAt(answers, i);
        var loop := GetNextLoop();
        queues := queues[loop := queues[loop] + [answers[i]]];
        forall j | 0 <= j < threadNum
          ensures Share(fds[..i + 1], old(nextLoop), j, threadNum)
               == Share(fds[..i], old(nextLoop), j, threadNum)
                  + (if j == loop then [fds[i]] else [])
        {
          assert fds[..i + 1] == fds[..i] + [fds[i]];
          ShareAppend(fds[..i], fds[i], old(nextLoop), j, threadNum);
        }
        NextStart(old(nextLoop), i, threadNum);
        i := i + 1;
      }
      AcceptedEnds(answers, i);
      assert fds[..i] == fds;
    }
  }

  function Accepted(answers: seq<int>): (fds: seq<int>)
    ensures |fds| <= |answers|
  {
    if answers == [] || answers[0] <= 0 then [] else [answers[0]] + Accepted(answers[1..])
  }

  lemma {:induction false} AcceptedAt(answers: seq<int>, i: nat)
    requires i < |answers| && answers[i] > 0 && i <= |Accepted(answers)|
    ensures i < |Accepted(answers)| && Accepted(answers)[i] == answers[i]
  {
    if i > 0 { AcceptedAt(answers[1..], i - 1); }
  }

  lemma {:induction false} AcceptedEnds(answers: seq<int>, i: nat)
    requires i <= |Accepted(answers)| && (i == |answers| || answers[i] <= 0)
    ensures i == |Accepted(answers)|
  {
    if i > 0 { AcceptedEnds(answers[1..], i - 1); }
  }

  /** Whose turn it is after `x` connections from loop 0 on. */
  function Turn(x: nat, n: nat): (r: nat)
    requires 0 < n
    ensures r < n
  {
    x % n
  }

  lemma StartsInRange(start: nat, n: nat)
    requires start < n
    ensures Turn(start, n) == start
  {
  }

  /** The part of a list of connections that loop `j` of `n` gets, `start` being the next. */
  function Share(fds: seq<int>, start: nat, j: nat, n: nat): seq<int>
    requires 0 < n
    decreases |fds|
  {
    if fds == [] then []
    else (if Turn(start, n) == j then [fds[0]] else []) + Share(fds[1..], start + 1, j, n)
  }

  lemma {:induction false} ShareAppend(fds: seq<int>, fd: int, start: nat, j: nat, n: nat)
    requires 0 < n
    ensures Share(fds + [fd], start, j, n)
         == Share(fds, start, j, n) + (if Turn(start + |fds|, n) == j then [fd] else [])
    decreases |fds|
  {
    hide Turn;
    if fds == [] {
      assert (fds + [fd])[1..] == [];
    } else {
      var rest := fds[1..];
      assert (fds + [fd])[1..] == rest + [fd] && (fds + [fd])[0] == fds[0];
      ShareAppend(rest, fd, start + 1, j, n);
      assert start + 1 + |rest| == start + |fds|;
      var first := if Turn(start, n) == j then [fds[0]] else [];
      var last := if Turn(start + |fds|, n) == j then [fd] else [];
      calc {
        Share(fds + [fd], start, j, n);
        first + Share(rest + [fd], start + 1, j, n);
        first + (Share(rest, start + 1, j, n) + last);
        first + Share(rest, start + 1, j, n) + last;
        Share(fds, start, j, n) + last;
      }
    }
  }

  lemma NextStart(start: nat, i: nat, n: nat)
    requires 0 < n
    ensures Turn(Turn(start + i, n) + 1, n) == Turn(start + i + 1, n)
  {
    var q, r := (start + i) / n, (start + i) % n;
    assert start + i == n * q + r;
    if r + 1 == n {
      assert start + i + 1 == n * (q + 1);
      ModUnique(start + i + 1, q + 1, 0, n);
      ModUnique(r + 1, 1, 0, n);
    } else {
      ModUnique(start + i + 1, q, r + 1, n);
      ModUnique(r + 1, 0, r + 1, n);
    }
  }

  lemma ModUnique(x: nat, q: nat, r: nat, n: nat)
    requires 0 < n && r < n && x == n * q + r
    ensures x % n == r && x / n == q
  {
    var p, s := x / n, x % n;
    assert n * p + s == x && 0 <= s < n;
    assert n * (p - q) == r - s;
    SmallMultiple(n, p - q, r - s);
  }

  lemma MultipleIsLarge(n: int, z: int)
    requires 0 < n && z >= 1
    ensures n * z >= n
  {
    assert n * z == n * (z - 1) + n;
  }

  /** Zero is the only multiple of `n` between `-n` and `n`. */
  lemma SmallMultiple(n: int, z: int, v: int)
    requires v == n * z && 0 - n < v < n
    ensures z == 0
  {
    if z >= 1 {
      MultipleIsLarge(n, z);
    } else if z <= -1 {
      MultipleIsLarge(n, -z);
    }
  }

  /** A connection goes to exactly one loop: the one whose turn it is. */
  lemma {:induction false} OnExactlyOneLoop(fds: seq<int>, start: nat, i: nat, j: nat, n: nat)
    requires 0 < n && i < |fds|
    requires forall k, l :: 0 <= k < l < |fds| ==> fds[k] != fds[l]
    ensures fds[i] in Share(fds, start, j, n) <==> j == Turn(start + i, n)
    decreases |fds|
  {
    hide Share, Turn;
    var rest := fds[1..];
    ShareSplits(fds, start, j, n, fds[i]);
    if i > 0 {
      assert rest[i - 1] == fds[i];
      OnExactlyOneLoop(rest, start + 1, i - 1, j, n);
      assert start + 1 + (i - 1) == start + i;
    } else {
      assert forall k :: 0 <= k < |rest| ==> rest[k] == fds[k + 1];
      ShareIsPart(rest, start + 1, j, n);
      assert start + i == start;
    }
  }

  lemma ShareSplits(fds: seq<int>, start: nat, j: nat, n: nat, fd: int)
    requires 0 < n && fds != []
    ensures fd in Share(fds, start, j, n)
       <==> (Turn(start, n) == j && fd == fds[0]) || fd in Share(fds[1..], start + 1, j, n)
  {
  }

  lemma {:induction false} ShareIsPart(fds: seq<int>, start: nat, j: nat, n: nat)
    requires 0 < n
    ensures forall fd :: fd in Share(fds, start, j, n) ==> fd in fds
    decreases |fds|
  {
    if fds != [] { ShareIsPart(fds[1..], start + 1, j, n); }
  }

  /** How long loop `j` has to wait for its turn. */
  function TurnsUntil(start: nat, j: nat, n: nat): nat
    requires j < n
  {
    var s := Turn(start, n);
    if s <= j then j - s else j + n - s
  }

  lemma NextTurn(start: nat, j: nat, n: nat)
    requires j < n
    ensures var d := TurnsUntil(start, j, n);
            TurnsUntil(start + 1, j, n) == (if d == 0 then n - 1 else d - 1)
    ensures TurnsUntil(start, j, n) == 0 <==> Turn(start, n) == j
  {
    var q, r := start / n, start % n;
    assert start == n * q + r;
    if r + 1 == n {
      assert n * (q + 1) == n * q + n;
      ModUnique(start + 1, q + 1, 0, n);
    } else {
      ModUnique(start + 1, q, r + 1, n);
    }
  }

  /** The load is even: of `k` connections every loop gets `k / n`, or one more. */
  lemma EvenLoad(fds: seq<int>, start: nat, j: nat, n: nat)
    requires j < n
    ensures var k := |fds|; var size := |Share(fds, start, j, n)|;
            size == k / n || (size == k / n + 1 && k % n != 0)
  {
    ShareSize(fds, start, j, n);
    RoundsOf(|fds|, TurnsUntil(start, j, n), n);
  }

  lemma RoundsOf(k: nat, d: nat, n: nat)
    requires d < n
    ensures var size := (k + n - 1 - d) / n;
            size == k / n || (size == k / n + 1 && k % n != 0)
  {
    var q, r := k / n, k % n;
    assert k == n * q + r;
    if r > d {
      assert n * (q + 1) == n * q + n;
      ModUnique(k + n - 1 - d, q + 1, r - 1 - d, n);
    } else {
      ModUnique(k + n - 1 - d, q, r + n - 1 - d, n);
    }
  }

  /** One connection more, or one turn less. */
  lemma RoundsStep(k: nat, n: nat)
    requires 0 < k && 0 < n
    ensures (k + n - 1) / n == 1 + (k - 1) / n
  {
    var q, r := (k - 1) / n, (k - 1) % n;
    assert k - 1 == n * q + r && n * (q + 1) == n * q + n;
    ModUnique(k + n - 1, q + 1, r, n);
  }

  lemma {:induction false} ShareSize(fds: seq<int>, start: nat, j: nat, n: nat)
    requires j < n
    ensures |Share(fds, start, j, n)| == (|fds| + n - 1 - TurnsUntil(start, j, n)) / n
    decreases |fds|
  {
    var k, d := |fds|, TurnsUntil(start, j, n);
    if fds == [] {
      ModUnique(n - 1 - d, 0, n - 1 - d, n);
    } else {
      ShareSize(fds[1..], start + 1, j, n);
      NextTurn(start, j, n);
      RoundsStep(k, n);
    }
  }
}
