/** The C stack server: a global `int stack[100]` with index `top` (-1 when
    empty), its push/pop/peek operations and the request router that picks a
    route by substring match. */
module StackServer {
  import opened Text

  newtype int32 = x: int | -0x8000_0000 <= x < 0x8000_0000

  const Capacity: nat := 100

  /** The value `stack_pop` and `stack_peek` return on an empty stack. */
  const EmptySentinel: int32 := -1

  // ---------------------------------------------------------------------------
  // The stack as a value: the live slots `stack[0..top]`, bottom first.

  function AfterPush(s: seq<int32>, v: int32): seq<int32>
  {
    if |s| < Capacity then s + [v] else s
  }

  function PopValue(s: seq<int32>): int32
  {
    if s == [] then EmptySentinel else s[|s| - 1]
  }

  function AfterPop(s: seq<int32>): seq<int32>
  {
    if s == [] then [] else s[..|s| - 1]
  }

  /** On a stack with room, pushing then popping gives back the pushed value and the old stack. */
  lemma PushThenPop(s: seq<int32>, v: int32)
    requires |s| < Capacity
    ensures PopValue(AfterPush(s, v)) == v && AfterPop(AfterPush(s, v)) == s
  {
    assert (s + [v])[..|s|] == s;
  }

  /** A full stack ignores a push; an empty one pops the sentinel and stays empty. */
  lemma BoundaryCases(s: seq<int32>, v: int32)
    ensures |s| == Capacity ==> AfterPush(s, v) == s
    ensures s == [] ==> PopValue(s) == EmptySentinel && AfterPop(s) == []
  {
  }

  datatype Op = PushOp(v: int32) | PopOp | PeekOp

  function Step(s: seq<int32>, op: Op): seq<int32>
  {
    match op
    case PushOp(v) => AfterPush(s, v)
    case PopOp => AfterPop(s)
    case PeekOp => s
  }

  /** The stack after running `ops` in order. */
  function Run(s: seq<int32>, ops: seq<Op>): seq<int32>
    decreases |ops|
  {
    if ops == [] then s else Run(Step(s, ops[0]), ops[1..])
  }

  /** Whatever sequence of push/pop/peek runs, at most `Capacity` slots are live,
      that is `top` stays within -1..99. */
  lemma {:induction false} RunStaysBounded(s: seq<int32>, ops: seq<Op>)
    requires |s| <= Capacity
    ensures |Run(s, ops)| <= Capacity
    decreases |ops|
  {
    if ops != [] {
      RunStaysBounded(Step(s, ops[0]), ops[1..]);
    }
  }

  // ---------------------------------------------------------------------------
  // Routing and responses of the request handler.

  datatype RouteKind = PushRoute | PopRoute | HealthRoute

  /** "POST /push" is matched before "GET /pop"; anything else is the health
      check. The route is stated by where the two markers occur in `request`,
      the buffer's text before its first NUL byte. */
  function Route(request: string): (k: RouteKind)
    ensures k == PushRoute <==> exists i :: OccursAt(request, "POST /push", i)
    ensures k == PopRoute <==>
              (forall i :: !OccursAt(request, "POST /push", i)) && exists i :: OccursAt(request, "GET /pop", i)
    ensures k == HealthRoute <==>
              (forall i :: !OccursAt(request, "POST /push", i)) && (forall i :: !OccursAt(request, "GET /pop", i))
  {
    if Contains(request, "POST /push") then PushRoute
    else if Contains(request, "GET /pop") then PopRoute
    else HealthRoute
  }

  /** The JSON bodies, one constructor per `sprintf` of the handler. */
  datatype Response =
    | Pushed(value: int32, top: int)
    | MissingValue
    | PopEmpty
    | Popped(value: int32)
    | Alive(size: int)

  /** The pop route's choice: "empty" whenever the popped value is the sentinel. */
  function PopResponse(v: int32): (r: Response)
    ensures r == PopEmpty <==> v == EmptySentinel
    ensures r != PopEmpty ==> r == Popped(v)
  {
    if v == EmptySentinel then PopEmpty else Popped(v)
  }

  /** The pop route reports "empty" exactly when the stack was empty or its top
      slot held -1: a stored -1 is removed and reported as "empty". */
  lemma PopRouteReportsEmpty(s: seq<int32>)
    ensures PopResponse(PopValue(s)) == PopEmpty <==> s == [] || s[|s| - 1] == EmptySentinel
    ensures s == [-1] ==> PopResponse(PopValue(s)) == PopEmpty && AfterPop(s) == []
  {
  }

  // ---------------------------------------------------------------------------
  // The global array and index, updated in place.

  class Stack {
    var stack: array<int32>
    var top: int

    ghost predicate Valid()
      reads this
    {
      stack.Length == Capacity && -1 <= top < Capacity
    }

    /** The live slots, bottom first. */
    ghost function Contents(): (s: seq<int32>)
      reads this, stack
      requires Valid()
    {
      stack[..top + 1]
    }

    /** The C globals start zeroed with `top == -1`. */
    constructor ()
      ensures Valid() && fresh(stack) && top == -1 && Contents() == []
      ensures forall i :: 0 <= i < Capacity ==> stack[i] == 0
    {
      stack := new int32[Capacity](_ => 0);
      top := -1;
    }

    /** `stack_push`: stores `val` one above `top` unless 100 values are held. */
    method Push(val: int32)
      requires Valid()
      modifies this`top, stack
      ensures Valid()
      ensures old(top) < Capacity - 1 ==>
                top == old(top) + 1 && stack[top] == val &&
                forall i :: 0 <= i < Capacity && i != top ==> stack[i] == old(stack[i])
      ensures old(top) == Capacity - 1 ==> top == old(top) && stack[..] == old(stack[..])
      ensures Contents() == AfterPush(old(Contents()), val)
    {
      if top < Capacity - 1 {
        top := top + 1;
        stack[top] := val;
        assert stack[..top + 1] == old(stack[..top + 1]) + [val];
      }
    }

    /** `stack_pop`: -1 on an empty stack, otherwise `stack[top]` with `top` lowered. */
    method Pop() returns (r: int32)
      requires Valid()
      modifies this`top
      ensures Valid()
      ensures r == PopValue(old(Contents()))
      ensures top == if old(top) < 0 then -1 else old(top) - 1
      ensures Contents() == AfterPop(old(Contents()))
    {
      if top < 0 {
        return EmptySentinel;
      }
      r := stack[top];
      top := top - 1;
    }

    /** `stack_peek`: the value `stack_pop` would return, changing nothing. */
    method Peek() returns (r: int32)
      requires Valid()
      ensures r == PopValue(Contents())
    {
      if top < 0 {
        return EmptySentinel;
      }
      r := stack[top];
    }

    /** One pass of the accept loop's routing. `request` is the buffer's text
        up to its first NUL byte, which is all `strstr` reads; `parsed` stands
        for what `atoi` makes of the text after "val=". */
    method HandleRequest(request: string, parsed: int32) returns (resp: Response)
      requires Valid()
      modifies this`top, stack
      ensures Valid()
      ensures Route(request) == PushRoute && Contains(request, "val=") ==>
                Contents() == AfterPush(old(Contents()), parsed) && resp == Pushed(parsed, top)
      ensures Route(request) == PushRoute && !Contains(request, "val=") ==>
                top == old(top) && stack[..] == old(stack[..]) && resp == MissingValue
      ensures Route(request) == PopRoute ==>
                Contents() == AfterPop(old(Contents())) && resp == PopResponse(PopValue(old(Contents())))
      ensures Route(request) == HealthRoute ==>
                top == old(top) && stack[..] == old(stack[..]) &&
                resp == Alive(|Contents()|) && 0 <= resp.size <= Capacity
    {
      if Contains(request, "POST /push") {
        if Contains(request, "val=") {
          Push(parsed);
          resp := Pushed(parsed, top);
        } else {
          resp := MissingValue;
        }
      } else if Contains(request, "GET /pop") {
        var v := Pop();
        resp := PopResponse(v);
      } else {
        resp := Alive(top + 1);
      }
    }
  }
}
