/** What the food picker returns for a given run of random draws, as the loop
    is written and as it is evidently meant. */
module Food {
  import opened Options
  import opened Grid

  /** Some draw is off the body, so the intended picker returns. */
  predicate Supplies(draws: seq<Cell>, body: seq<Cell>)
  {
    exists i :: 0 <= i < |draws| && draws[i] !in body
  }

  /** The picker loop as written: `overlaps` is carried from one draw to the
      next and only ever set, never cleared. None means the loop has not
      returned after the draws given. */
  function PickAsWritten(draws: seq<Cell>, body: seq<Cell>, overlaps: bool): (r: Option<Cell>)
    ensures r.Some? ==> !overlaps && |draws| > 0 && r.value == draws[0] && r.value !in body
    decreases |draws|
  {
    if draws == [] then None
    else
      var flag := overlaps || draws[0] in body;
      if !flag then Some(draws[0]) else PickAsWritten(draws[1..], body, flag)
  }

  /** The picker as meant: the first draw that is off the body. */
  function FirstFree(draws: seq<Cell>, body: seq<Cell>): (r: Option<Cell>)
    ensures r.Some? ==> r.value in draws && r.value !in body
  {
    if draws == [] then None
    else if draws[0] !in body then Some(draws[0])
    else FirstFree(draws[1..], body)
  }

  /** Once the flag is set the written loop never returns. */
  lemma {:induction false} PickAsWrittenStuck(draws: seq<Cell>, body: seq<Cell>)
    ensures PickAsWritten(draws, body, true) == None
    decreases |draws|
  {
    if draws != [] {
      PickAsWrittenStuck(draws[1..], body);
    }
  }

  /** The written loop returns only when its FIRST draw is off the body, and
      then returns that draw. */
  lemma PickAsWrittenOnlyFirst(draws: seq<Cell>, body: seq<Cell>)
    ensures PickAsWritten(draws, body, false) ==
      if |draws| > 0 && draws[0] !in body then Some(draws[0]) else None
  {
    if draws != [] && draws[0] in body {
      PickAsWrittenStuck(draws[1..], body);
    }
  }

  /** The intended picker returns exactly when some draw is free. */
  lemma {:induction false} FirstFreeFound(draws: seq<Cell>, body: seq<Cell>)
    ensures FirstFree(draws, body).Some? <==> Supplies(draws, body)
    decreases |draws|
  {
    if draws != [] && draws[0] in body {
      FirstFreeFound(draws[1..], body);
      if Supplies(draws, body) {
        var i :| 0 <= i < |draws| && draws[i] !in body;
        assert draws[1..][i - 1] == draws[i];
      }
      if Supplies(draws[1..], body) {
        var i :| 0 <= i < |draws[1..]| && draws[1..][i] !in body;
        assert draws[i + 1] == draws[1..][i];
      }
    }
  }

  /** What the intended picker returns is the first free draw: every draw
      before it overlaps the body. */
  lemma {:induction false} FirstFreeIsFirst(draws: seq<Cell>, body: seq<Cell>)
    requires FirstFree(draws, body).Some?
    ensures exists i :: 0 <= i < |draws| && draws[i] == FirstFree(draws, body).value &&
                        forall j :: 0 <= j < i ==> draws[j] in body
    decreases |draws|
  {
    if draws[0] in body {
      FirstFreeIsFirst(draws[1..], body);
      var i :| 0 <= i < |draws[1..]| && draws[1..][i] == FirstFree(draws[1..], body).value &&
               forall j :: 0 <= j < i ==> draws[1..][j] in body;
      assert draws[i + 1] == FirstFree(draws, body).value;
      forall j | 0 <= j < i + 1 ensures draws[j] in body {
        if j > 0 { assert draws[j] == draws[1..][j - 1]; }
      }
    } else {
      assert draws[0] == FirstFree(draws, body).value;
    }
  }

  /** Wherever the written loop does return, the correction returns the same
      cell: the two differ only where the written loop never returns. */
  lemma CorrectionAgrees(draws: seq<Cell>, body: seq<Cell>)
    requires PickAsWritten(draws, body, false).Some?
    ensures FirstFree(draws, body) == PickAsWritten(draws, body, false)
  {
    PickAsWrittenOnlyFirst(draws, body);
  }

  /** A second draw that is free does not help the written loop once the first
      draw has landed on the body; the correction returns it. */
  lemma FlagNeverCleared(draws: seq<Cell>, body: seq<Cell>)
    requires |draws| >= 2 && draws[0] in body && draws[1] !in body
    ensures PickAsWritten(draws, body, false) == None
    ensures FirstFree(draws, body) == Some(draws[1])
  {
    PickAsWrittenOnlyFirst(draws, body);
  }
}
