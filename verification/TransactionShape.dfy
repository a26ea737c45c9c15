/**
 The instructions around a liquidation: three validators over a transaction's top-level
 instructions, and the one shape of transaction they accept together.
 */
module TransactionShape {
  import opened Wrappers

  type Pubkey = string

  type Discriminator = seq<bv8>

  const COMPUTE_PROGRAM_KEY: Pubkey := "ComputeBudget111111111111111111111111111111"

  datatype Instruction = Instruction(programId: Pubkey, data: seq<bv8>) {
    predicate WellFormed() {
      |data| >= 8
    }

    predicate Is(program: Pubkey, hash: Discriminator) {
      WellFormed() && programId == program && data[..8] == hash
    }

    predicate IsAmong(allowed: seq<(Pubkey, Discriminator)>) {
      WellFormed() && (programId, data[..8]) in allowed
    }
  }

  /** The instructions that are not compute-budget ones, in order. */
  function Outer(ixes: seq<Instruction>): seq<Instruction> {
    if ixes == [] then []
    else
      var last := ixes[|ixes| - 1];
      Outer(ixes[..|ixes| - 1]) + (if last.programId == COMPUTE_PROGRAM_KEY then [] else [last])
  }

  lemma {:induction false} OuterMembers(ixes: seq<Instruction>)
    ensures forall x :: x in Outer(ixes) ==> x.programId != COMPUTE_PROGRAM_KEY
  {
    if ixes != [] {
      OuterMembers(ixes[..|ixes| - 1]);
    }
  }

  // ---- The start comes first ----

  /** Allowed instructions other than the start. */
  predicate Preamble(ixes: seq<Instruction>, program: Pubkey, hash: Discriminator, allowed: seq<(Pubkey, Discriminator)>) {
    forall i :: 0 <= i < |ixes| ==> ixes[i].IsAmong(allowed) && !ixes[i].Is(program, hash)
  }

  /** Well-formed instructions other than the start. */
  predicate Onward(ixes: seq<Instruction>, program: Pubkey, hash: Discriminator) {
    forall i :: 0 <= i < |ixes| ==> ixes[i].WellFormed() && !ixes[i].Is(program, hash)
  }

  /** The start at k, allowed instructions before it, no other start after it. */
  predicate StartsAt(ixes: seq<Instruction>, k: nat, program: Pubkey, hash: Discriminator, allowed: seq<(Pubkey, Discriminator)>) {
    && k < |ixes| && ixes[k].Is(program, hash)
    && Preamble(ixes[..k], program, hash, allowed)
    && Onward(ixes[k + 1..], program, hash)
  }

  ghost predicate StartsOnce(ixes: seq<Instruction>, program: Pubkey, hash: Discriminator, allowed: seq<(Pubkey, Discriminator)>) {
    exists k: nat :: StartsAt(ixes, k, program, hash, allowed)
  }

  lemma OnwardOneMore(o: seq<Instruction>, x: Instruction, program: Pubkey, hash: Discriminator)
    ensures Onward(o + [x], program, hash) <==> Onward(o, program, hash) && x.WellFormed() && !x.Is(program, hash)
  {
    assert (o + [x])[|o|] == x;
    assert forall i :: 0 <= i < |o| ==> (o + [x])[i] == o[i];
  }

  /** One more instruction extends a shape or breaks it. */
  lemma OneMore(o: seq<Instruction>, x: Instruction, program: Pubkey, hash: Discriminator, allowed: seq<(Pubkey, Discriminator)>)
    ensures Preamble(o + [x], program, hash, allowed) <==> Preamble(o, program, hash, allowed) && x.IsAmong(allowed) && !x.Is(program, hash)
    ensures StartsOnce(o + [x], program, hash, allowed) <==>
              || (Preamble(o, program, hash, allowed) && x.Is(program, hash))
              || (StartsOnce(o, program, hash, allowed) && x.WellFormed() && !x.Is(program, hash))
  {
    var longer := o + [x];
    assert longer[|o|] == x && longer[..|o|] == o && longer[|o| + 1..] == [];
    assert forall i :: 0 <= i < |o| ==> longer[i] == o[i];
    if Preamble(o, program, hash, allowed) && x.Is(program, hash) {
      assert StartsAt(longer, |o|, program, hash, allowed);
    }
    forall k: nat | k < |o|
      ensures StartsAt(longer, k, program, hash, allowed) <==>
                StartsAt(o, k, program, hash, allowed) && x.WellFormed() && !x.Is(program, hash)
    {
      assert longer[..k] == o[..k] && longer[k + 1..] == o[k + 1..] + [x];
      OnwardOneMore(o[k + 1..], x, program, hash);
    }
  }

  /** The scan for the start: still waiting, started, or failed for good. */
  datatype Scan = Waiting | Started | Failed(error: Error) {
    function Next(ix: Instruction, program: Pubkey, hash: Discriminator, allowed: seq<(Pubkey, Discriminator)>): Scan {
      if Failed? || ix.programId == COMPUTE_PROGRAM_KEY then this
      else if !ix.WellFormed() then Failed(StartNotFirst)
      else if Started? then (if ix.Is(program, hash) then Failed(StartRepeats) else Started)
      else if ix.Is(program, hash) then Started
      else if ix.IsAmong(allowed) then Waiting
      else Failed(StartNotFirst)
    }

    function Verdict(): Result<()> {
      match this
      case Started => Ok(())
      case Waiting => Err(StartNotFirst)
      case Failed(e) => Err(e)
    }
  }

  ghost function Scanned(ixes: seq<Instruction>, program: Pubkey, hash: Discriminator, allowed: seq<(Pubkey, Discriminator)>): Scan {
    if ixes == [] then Waiting
    else Scanned(ixes[..|ixes| - 1], program, hash, allowed).Next(ixes[|ixes| - 1], program, hash, allowed)
  }

  /** The scan ends started exactly on the shape, whatever compute-budget instructions lie between. */
  lemma {:induction false} ScanFindsShape(ixes: seq<Instruction>, program: Pubkey, hash: Discriminator, allowed: seq<(Pubkey, Discriminator)>)
    ensures Scanned(ixes, program, hash, allowed) == Waiting <==> Preamble(Outer(ixes), program, hash, allowed)
    ensures Scanned(ixes, program, hash, allowed) == Started <==> StartsOnce(Outer(ixes), program, hash, allowed)
  {
    if ixes != [] {
      var init, last := ixes[..|ixes| - 1], ixes[|ixes| - 1];
      ScanFindsShape(init, program, hash, allowed);
      OneMore(Outer(init), last, program, hash, allowed);
      if last.programId == COMPUTE_PROGRAM_KEY {
        assert Outer(ixes) == Outer(init);
      }
    }
  }

  /** A start after a shape that already had one. */
  ghost predicate RepeatsAt(ixes: seq<Instruction>, i: nat, program: Pubkey, hash: Discriminator, allowed: seq<(Pubkey, Discriminator)>) {
    && i < |ixes| && ixes[i].programId != COMPUTE_PROGRAM_KEY && ixes[i].Is(program, hash)
    && StartsOnce(Outer(ixes[..i]), program, hash, allowed)
  }

  /** StartRepeats is reported exactly when some prefix is acceptable and another start follows it. */
  lemma {:induction false} RepeatIsReported(ixes: seq<Instruction>, program: Pubkey, hash: Discriminator, allowed: seq<(Pubkey, Discriminator)>)
    ensures Scanned(ixes, program, hash, allowed) == Failed(StartRepeats) <==>
              exists i: nat :: RepeatsAt(ixes, i, program, hash, allowed)
  {
    if ixes != [] {
      var init, n := ixes[..|ixes| - 1], |ixes| - 1;
      RepeatIsReported(init, program, hash, allowed);
      ScanFindsShape(init, program, hash, allowed);
      forall i: nat | i < n
        ensures RepeatsAt(ixes, i, program, hash, allowed) <==> RepeatsAt(init, i, program, hash, allowed)
      {
        assert init[..i] == ixes[..i];
      }
      assert RepeatsAt(ixes, n, program, hash, allowed) <==>
             Scanned(init, program, hash, allowed) == Started && ixes[n].programId != COMPUTE_PROGRAM_KEY && ixes[n].Is(program, hash);
    }
  }

  lemma {:induction false} FailureIsFinal(ixes: seq<Instruction>, i: nat, program: Pubkey, hash: Discriminator, allowed: seq<(Pubkey, Discriminator)>)
    requires i < |ixes| && Scanned(ixes[..i], program, hash, allowed).Next(ixes[i], program, hash, allowed).Failed?
    ensures Scanned(ixes, program, hash, allowed) == Scanned(ixes[..i], program, hash, allowed).Next(ixes[i], program, hash, allowed)
  {
    var init := ixes[..|ixes| - 1];
    if i < |ixes| - 1 {
      assert init[..i] == ixes[..i];
      FailureIsFinal(init, i, program, hash, allowed);
    }
  }

  method ValidateIxFirst(ixes: seq<Instruction>, programId: Pubkey, expectedHash: Discriminator,
                         allowedIxs: seq<(Pubkey, Discriminator)>) returns (r: Result<()>)
    ensures r == Scanned(ixes, programId, expectedHash, allowedIxs).Verdict()
  {
    var encountered := false;
    for i := 0 to |ixes|
      invariant Scanned(ixes[..i], programId, expectedHash, allowedIxs) == if encountered then Started else Waiting
    {
      var ix := ixes[i];
      assert ixes[..i + 1][..i] == ixes[..i];
      if ix.programId == COMPUTE_PROGRAM_KEY {
        continue;
      }
      if Scanned(ixes[..i], programId, expectedHash, allowedIxs).Next(ix, programId, expectedHash, allowedIxs).Failed? {
        FailureIsFinal(ixes, i, programId, expectedHash, allowedIxs);
      }
      if |ix.data| < 8 {
        return Err(StartNotFirst);
      }
      var discrim := ix.data[..8];
      if !encountered {
        if ix.programId == programId && discrim == expectedHash {
          encountered := true;
        } else if (ix.programId, discrim) !in allowedIxs {
          return Err(StartNotFirst);
        }
      } else if ix.programId == programId && discrim == expectedHash {
        return Err(StartRepeats);
      }
    }
    assert ixes[..|ixes|] == ixes;
    if encountered {
      return Ok(());
    }
    return Err(StartNotFirst);
  }

  // ---- The end comes last ----

  function LastVerdict(ixes: seq<Instruction>, program: Pubkey, hash: Discriminator): Result<()> {
    if ixes == [] then Err(Panic)
    else if ixes[|ixes| - 1].Is(program, hash) then Ok(())
    else Err(EndNotLast)
  }

  method ValidateIxLast(ixes: seq<Instruction>, programId: Pubkey, expectedHash: Discriminator) returns (r: Result<()>)
    ensures r == LastVerdict(ixes, programId, expectedHash)
  {
    if |ixes| == 0 {
      return Err(Panic);
    }
    var lastIx := ixes[|ixes| - 1];
    if |lastIx.data| < 8 {
      return Err(EndNotLast);
    }
    var discrim := lastIx.data[..8];
    if lastIx.programId != programId {
      return Err(EndNotLast);
    }
    return if discrim == expectedHash then Ok(()) else Err(EndNotLast);
  }

  // ---- Nothing else from the program ----

  predicate Tolerated(ix: Instruction, program: Pubkey, hashes: seq<Discriminator>) {
    ix.programId == program ==> ix.WellFormed() && ix.data[..8] in hashes
  }

  predicate Exclusive(ixes: seq<Instruction>, program: Pubkey, hashes: seq<Discriminator>) {
    forall i :: 0 <= i < |ixes| ==> Tolerated(ixes[i], program, hashes)
  }

  /** The first instruction that is not tolerated decides the error: a panic when it is malformed. */
  predicate OffendsFirst(ixes: seq<Instruction>, i: nat, program: Pubkey, hashes: seq<Discriminator>, error: Error) {
    && i < |ixes| && !Tolerated(ixes[i], program, hashes) && Exclusive(ixes[..i], program, hashes)
    && error == if ixes[i].WellFormed() then ForbiddenIx else Panic
  }

  method ValidateIxesExclusive(ixes: seq<Instruction>, programId: Pubkey, expectedHashes: seq<Discriminator>) returns (r: Result<()>)
    ensures r.Ok? <==> Exclusive(ixes, programId, expectedHashes)
    ensures r.Err? ==> exists i: nat :: OffendsFirst(ixes, i, programId, expectedHashes, r.error)
  {
    for i := 0 to |ixes|
      invariant Exclusive(ixes[..i], programId, expectedHashes)
    {
      var ix := ixes[i];
      if ix.programId == programId {
        if |ix.data| < 8 {
          assert OffendsFirst(ixes, i, programId, expectedHashes, Panic);
          return Err(Panic);
        }
        if ix.data[..8] !in expectedHashes {
          assert OffendsFirst(ixes, i, programId, expectedHashes, ForbiddenIx);
          return Err(ForbiddenIx);
        }
      }
    }
    return Ok(());
  }

  // ---- The whole shape ----

  datatype Rules = Rules(
    programs: seq<Pubkey>,
    program: Pubkey,
    startHash: Discriminator,
    endHash: Discriminator,
    allowedFirst: seq<(Pubkey, Discriminator)>,
    ownHashes: seq<Discriminator>)

  /** Every instruction belongs to one of the allowed programs. */
  predicate ProgramsAllowed(ixes: seq<Instruction>, programs: seq<Pubkey>) {
    forall i :: 0 <= i < |ixes| ==> ixes[i].programId in programs
  }

  /** The source's load_and_validate_instructions, on the instructions the runtime hands over one by one. */
  method LoadAndValidateInstructions(ixes: seq<Instruction>, programs: seq<Pubkey>) returns (r: Result<seq<Instruction>>)
    ensures r == if ProgramsAllowed(ixes, programs) then Ok(ixes) else Err(ForbiddenIx)
  {
    var loaded: seq<Instruction> := [];
    while |loaded| < |ixes|
      invariant |loaded| <= |ixes| && loaded == ixes[..|loaded|] && ProgramsAllowed(loaded, programs)
      decreases |ixes| - |loaded|
    {
      if ixes[|loaded|].programId !in programs {
        return Err(ForbiddenIx);
      }
      loaded := loaded + [ixes[|loaded|]];
    }
    assert loaded == ixes;
    return Ok(loaded);
  }

  /**
   The checks of a liquidation start in order: the allowed programs, the three validators, and
   that the start itself, the instruction at `current`, is a top-level one of the program.
   */
  method ValidateInstructions(ixes: seq<Instruction>, rules: Rules, topLevel: bool, current: nat) returns (r: Result<()>)
    requires rules.startHash != rules.endHash && current < |ixes|
    ensures r.Ok? <==>
      && ProgramsAllowed(ixes, rules.programs) && WellShaped(ixes, rules)
      && topLevel && ixes[current].programId == rules.program && current < |ixes| - 1
  {
    ScanFindsShape(ixes, rules.program, rules.startHash, rules.allowedFirst);
    AcceptedIsWellShaped(ixes, rules);
    var loaded :- LoadAndValidateInstructions(ixes, rules.programs);
    var _ :- ValidateIxFirst(loaded, rules.program, rules.startHash, rules.allowedFirst);
    var _ :- ValidateIxLast(loaded, rules.program, rules.endHash);
    var _ :- ValidateIxesExclusive(loaded, rules.program, rules.ownHashes);
    if !topLevel {
      return Err(NotAllowedInCPI);
    }
    if ixes[current].programId != rules.program {
      return Err(NotAllowedInCPI);
    }
    return if current < |loaded| - 1 then Ok(()) else Err(StartNotFirst);
  }

  /** The closing sanity check never fails: when the instruction at `current` is the start, it is not the last. */
  lemma StartIsBeforeEnd(ixes: seq<Instruction>, rules: Rules, current: nat)
    requires rules.startHash != rules.endHash && WellShaped(ixes, rules)
    requires current < |ixes| && ixes[current].Is(rules.program, rules.startHash)
    ensures current < |ixes| - 1 && ixes[current].programId == rules.program
  {
  }

  /** What each validator asks for. */
  ghost predicate Accepted(ixes: seq<Instruction>, rules: Rules) {
    && StartsOnce(Outer(ixes), rules.program, rules.startHash, rules.allowedFirst)
    && LastVerdict(ixes, rules.program, rules.endHash).Ok?
    && Exclusive(ixes, rules.program, rules.ownHashes)
  }

  /**
   The transaction read as a whole: compute-budget instructions aside, a preamble, the start, a
   body without another start, and the end, which is the very last instruction.
   */
  ghost predicate Sandwich(ixes: seq<Instruction>, rules: Rules, preamble: seq<Instruction>, start: Instruction,
                           body: seq<Instruction>, end: Instruction) {
    && Outer(ixes) == preamble + [start] + body + [end]
    && ixes != [] && ixes[|ixes| - 1] == end
    && start.Is(rules.program, rules.startHash) && end.Is(rules.program, rules.endHash)
    && Preamble(preamble, rules.program, rules.startHash, rules.allowedFirst)
    && Onward(body, rules.program, rules.startHash)
    && Exclusive(ixes, rules.program, rules.ownHashes)
  }

  ghost predicate WellShaped(ixes: seq<Instruction>, rules: Rules) {
    exists preamble, start, body, end :: Sandwich(ixes, rules, preamble, start, body, end)
  }

  lemma AcceptedHasSandwich(ixes: seq<Instruction>, rules: Rules)
    requires rules.startHash != rules.endHash && Accepted(ixes, rules)
    ensures WellShaped(ixes, rules)
  {
    var o, end := Outer(ixes), ixes[|ixes| - 1];
    var k: nat :| StartsAt(o, k, rules.program, rules.startHash, rules.allowedFirst);
    OuterMembers(ixes);
    assert o[k] in o;
    assert o == Outer(ixes[..|ixes| - 1]) + [end];
    var body := o[k + 1..|o| - 1];
    assert o[k + 1..] == body + [end];
    OnwardOneMore(body, end, rules.program, rules.startHash);
    assert Sandwich(ixes, rules, o[..k], o[k], body, end);
  }

  lemma SandwichIsAccepted(ixes: seq<Instruction>, rules: Rules, preamble: seq<Instruction>, start: Instruction,
                           body: seq<Instruction>, end: Instruction)
    requires rules.startHash != rules.endHash && Sandwich(ixes, rules, preamble, start, body, end)
    ensures Accepted(ixes, rules)
  {
    var o, k := Outer(ixes), |preamble|;
    assert o[..k] == preamble && o[k] == start && o[k + 1..] == body + [end];
    OnwardOneMore(body, end, rules.program, rules.startHash);
    assert StartsAt(o, k, rules.program, rules.startHash, rules.allowedFirst);
  }

  /** The three conditions together are exactly the whole shape. */
  lemma AcceptedIsWellShaped(ixes: seq<Instruction>, rules: Rules)
    requires rules.startHash != rules.endHash
    ensures Accepted(ixes, rules) <==> WellShaped(ixes, rules)
  {
    if Accepted(ixes, rules) {
      AcceptedHasSandwich(ixes, rules);
    }
    forall preamble, start, body, end | Sandwich(ixes, rules, preamble, start, body, end)
      ensures Accepted(ixes, rules)
    {
      SandwichIsAccepted(ixes, rules, preamble, start, body, end);
    }
  }
}
