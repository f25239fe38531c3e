/** The immediates of the memory instructions: what their handlers take out of the window is what the
    decoder put in, each in the role it was decoded for. */
module MemoryImmediates {
  import opened Core
  import opened RuntimeState
  import opened Decoders
  import opened Window
  import opened LinearMemory

  /** The memory handler an opcode leads to, for 0xFC by way of its subopcode. */
  function Dispatch(op: byte, sub: nat): Option<Op> {
    if 0x28 <= op <= 0x35 then Some(LoadOp(AccessOf(op)))
    else if 0x36 <= op <= 0x3E then Some(StoreOp(AccessOf(op)))
    else if op == 0x3F then Some(SizeOp)
    else if op == 0x40 then Some(GrowOp)
    else if op != 0xFC then None
    else if sub == 8 then Some(InitOp)
    else if sub == 9 then Some(DropOp)
    else if sub == 10 then Some(CopyOp)
    else if sub == 11 then Some(FillOp)
    else None
  }

  /** The roles the handler itself pops: the 0xFC dispatcher has popped the subopcode before. */
  function OwnRoles(multi: bool, op: byte, sub: nat): seq<Role> {
    if op == 0xFC then ExpectedBulk(sub) else Expected(multi, op, sub)
  }

  /** The window a handler finds. */
  function OwnWindow(op: byte, window: seq<Imm>): seq<Imm> {
    if op == 0xFC && window != [] then window[..|window| - 1] else window
  }

  /** The handler gets as far as its immediates. */
  predicate Enters(h: Op, memories: nat, stack: seq<Value>) {
    ((h.SizeOp? || h.GrowOp?) ==> memories > 0) && (h.StoreOp? ==> stack != [])
  }

  lemma {:induction false} PopsFromTop(r: Regs, n: nat)
    ensures var (r', imms) := PopImms(r, n);
            && |imms| == (if n <= |r.window| then n else |r.window|)
            && r' == r.(window := r.window[..|r.window| - |imms|])
            && forall k :: 0 <= k < |imms| ==> imms[k] == r.window[|r.window| - 1 - k].bits % TWO_64
    decreases n
  {
    if n > 0 && r.window != [] {
      PopsFromTop(PopImm(r).value.0, n - 1);
    }
  }

  lemma CountsAgree(op: byte, sub: nat, memories: nat, other: nat)
    requires Dispatch(op, sub).Some?
    ensures |OwnRoles(memories > 1, op, sub)| == ImmCount(Dispatch(op, sub).value, memories)
    ensures op == 0xFC ==> Expected(memories > 1, op, sub) == [Subopcode] + OwnRoles(memories > 1, op, sub)
    ensures op != 0xFC ==> Expected(memories > 1, op, other) == OwnRoles(memories > 1, op, sub)
  {
    hide AccessOf;
  }

  /** The account of the window is what the memory handlers do: they begin exactly when it has what they
      are expected to pop, pop exactly that, and otherwise fail. */
  lemma HandlerDrains(op: byte, sub: nat, memories: nat, stack: seq<Value>, window: seq<Imm>)
    requires Dispatch(op, sub).Some? && Enters(Dispatch(op, sub).value, memories, stack)
    requires op == 0xFC ==> window != [] && window[|window| - 1].bits == sub
    ensures var (r, call) := Begin(Dispatch(op, sub).value, memories, Regs(stack, OwnWindow(op, window)));
            Drain(memories > 1, op, window) == if call.Some? then Some(r.window) else None
  {
    hide PopImms, Dispatch, Expected, OwnRoles, ImmCount;
    var h := Dispatch(op, sub).value;
    CountsAgree(op, sub, memories, if window == [] then 0 else window[|window| - 1].bits);
    PopsFromTop(Regs(if h.StoreOp? then stack[..|stack| - 1] else stack, OwnWindow(op, window)), ImmCount(h, memories));
    assert forall k :: 0 <= k < |window| ==> window[..|window| - 1][..k] == window[..k];
  }

  function MemoryOf(role: Role, imm: nat): seq<nat> {
    if role == MemoryIndex || role == SourceMemory then [imm] else []
  }

  /** The values among `imms` whose role is a memory. */
  function MemoriesOf(roles: seq<Role>, imms: seq<nat>): seq<nat>
    requires |roles| == |imms|
    decreases |roles|
  {
    if roles == [] then [] else MemoryOf(roles[0], imms[0]) + MemoriesOf(roles[1..], imms[1..])
  }

  /** Asking for the size of a memory loads none, and an access with one memory names none. */
  function Asked(h: Op, memories: nat, roles: seq<Role>, imms: seq<nat>): seq<nat>
    requires |roles| == |imms|
  {
    if h.SizeOp? then [] else if (h.LoadOp? || h.StoreOp?) && memories <= 1 then [0] else MemoriesOf(roles, imms)
  }

  lemma {:induction false} FewMemories(roles: seq<Role>, imms: seq<nat>)
    requires 0 < |roles| == |imms| <= 3
    ensures MemoriesOf(roles, imms) ==
            MemoryOf(roles[0], imms[0]) + ((if |roles| > 1 then MemoryOf(roles[1], imms[1]) else []) +
                                           (if |roles| > 2 then MemoryOf(roles[2], imms[2]) else []))
    decreases |roles|
  {
    hide MemoryOf;
    if |roles| > 1 {
      FewMemories(roles[1..], imms[1..]);
    }
  }

  lemma NeedsByRole(op: byte, sub: nat, memories: nat, imms: seq<nat>)
    requires Dispatch(op, sub).Some? && |imms| == |OwnRoles(memories > 1, op, sub)|
    ensures |imms| > 0
            && (var h := Dispatch(op, sub).value; h.LoadOp? || h.StoreOp? || h.InitOp? || h.CopyOp? ==> |imms| >= 2)
    ensures Needs(Dispatch(op, sub).value, imms)
            == Asked(Dispatch(op, sub).value, memories, OwnRoles(memories > 1, op, sub), imms)
  {
    hide AccessOf, MemoriesOf;
    CountsAgree(op, sub, memories, 0);
    FewMemories(OwnRoles(memories > 1, op, sub), imms);
  }

  lemma DecodedRoles(env: Env, body: seq<byte>, c: nat, op: byte)
    requires !IsControl(op) && DecodePlain(env, body, c, op).Success?
    requires var imms := DecodePlain(env, body, c, op).value.imms;
             Dispatch(op, if imms == [] then 0 else imms[|imms| - 1].bits).Some?
    ensures var imms := DecodePlain(env, body, c, op).value.imms;
            var sub := if imms == [] then 0 else imms[|imms| - 1].bits;
            && Drain(env.MultiMemory(), op, imms) == Some([]) && (op == 0xFC ==> imms != [])
            && RolesFromTop(OwnWindow(op, imms)) == OwnRoles(env.MultiMemory(), op, sub)
  {
    hide DecodePlain, AccessOf, Expected, OwnRoles;
    var imms := DecodePlain(env, body, c, op).value.imms;
    var sub := if imms == [] then 0 else imms[|imms| - 1].bits;
    ImmediatesConserved(env, body, c, op);
    CountsAgree(op, sub, |env.wasm.memory64|, sub);
    if op == 0xFC {
      assert imms != [];
      assert RolesFromTop(imms)[1..] == RolesFromTop(imms[..|imms| - 1]);
    }
  }

  /** A handler that finds just the immediates of its roles takes each in its role. */
  lemma HandlerTakes(op: byte, sub: nat, memories: nat, stack: seq<Value>, own: seq<Imm>)
    requires Dispatch(op, sub).Some? && Enters(Dispatch(op, sub).value, memories, stack)
    requires RolesFromTop(own) == OwnRoles(memories > 1, op, sub)
    ensures Takes(Dispatch(op, sub).value, memories, stack, own)
  {
    hide PopImms, Dispatch, OwnRoles, ImmCount, RolesFromTop, Needs, Asked;
    var h := Dispatch(op, sub).value;
    CountsAgree(op, sub, memories, sub);
    var regs := Regs(if h.StoreOp? then stack[..|stack| - 1] else stack, own);
    PopsFromTop(regs, ImmCount(h, memories));
    NeedsByRole(op, sub, memories, PopImms(regs, ImmCount(h, memories)).1);
  }

  /** The handler begins and leaves the window empty; its immediates are the values from the top down, and
      the memories it asks for are those decoded as memories. */
  predicate Takes(h: Op, memories: nat, stack: seq<Value>, own: seq<Imm>) {
    var (r, call) := Begin(h, memories, Regs(stack, own));
    && call.Some? && r.window == [] && |call.value.imms| == |own|
    && (forall k :: 0 <= k < |own| ==> call.value.imms[k] == own[|own| - 1 - k].bits % TWO_64)
    && call.value.needs == Asked(h, memories, RolesFromTop(own), call.value.imms)
  }

  /** A decoded memory instruction finds in an empty window exactly its own immediates, in the roles its
      handler takes them for. */
  lemma DecodedIsTaken(env: Env, body: seq<byte>, c: nat, op: byte, stack: seq<Value>)
    requires !IsControl(op) && DecodePlain(env, body, c, op).Success?
    requires var imms := DecodePlain(env, body, c, op).value.imms;
             var sub := if imms == [] then 0 else imms[|imms| - 1].bits;
             Dispatch(op, sub).Some? && Enters(Dispatch(op, sub).value, |env.wasm.memory64|, stack)
    ensures var imms := DecodePlain(env, body, c, op).value.imms;
            var sub := if imms == [] then 0 else imms[|imms| - 1].bits;
            && RolesFromTop(OwnWindow(op, imms)) == OwnRoles(env.MultiMemory(), op, sub)
            && Takes(Dispatch(op, sub).value, |env.wasm.memory64|, stack, OwnWindow(op, imms))
  {
    hide DecodePlain, Dispatch, Drain, OwnRoles, RolesFromTop, OwnWindow, Takes;
    var imms := DecodePlain(env, body, c, op).value.imms;
    var sub := if imms == [] then 0 else imms[|imms| - 1].bits;
    DecodedRoles(env, body, c, op);
    HandlerTakes(op, sub, |env.wasm.memory64|, stack, OwnWindow(op, imms));
  }
}
