/** The head of a side trace: parent registers are moved to the registers the side trace expects, while code is
    generated backwards. */
module RegShuffle {
  import opened Sealing

  const ESP := 4
  const MAX_GPR := 8
  const RSET_GPR: set<Reg> := set r: Reg | r < MAX_GPR && r != ESP
  const RSET_FPR: set<Reg> := set r: Reg | MAX_GPR <= r
  const RSET_ALL := RSET_GPR + RSET_FPR

  type Reg = r: nat | r < 16
  type File = f: seq<int> | |f| == 16 witness [0, 0, 0, 0, 0, 0, 0, 0, 0, 0, 0, 0, 0, 0, 0, 0]

  /** Two registers of the same kind; only these can be copied to each other. */
  predicate Alike(a: Reg, b: Reg) { a < MAX_GPR <==> b < MAX_GPR }

  datatype Move = Move(dst: Reg, src: Reg)

  /** Running the code from its first instruction on. */
  function Exec(mc: seq<Move>, regs: File): File
  {
    if mc == [] then regs else Exec(mc[1..], regs[mc[0].dst := regs[mc[0].src]])
  }

  /** After mc, every register t of want holds what want[t] held before it. */
  ghost predicate Delivers(mc: seq<Move>, want: map<Reg, Reg>)
  {
    forall regs: File, t: Reg {:trigger Exec(mc, regs), want[t]} :: t in want ==> Exec(mc, regs)[t] == regs[want[t]]
  }

  /** Code grows downwards: a new move runs before everything emitted so far, so who expected dst now has to look in
      src. */
  function Earlier(want: map<Reg, Reg>, m: Move): map<Reg, Reg>
  {
    map t | t in want :: if want[t] == m.dst then m.src else want[t]
  }

  lemma EmitDelivers(mc: seq<Move>, want: map<Reg, Reg>, m: Move)
    requires Delivers(mc, want)
    ensures Delivers([m] + mc, Earlier(want, m))
  {
    var mc' := [m] + mc;
    assert mc'[1..] == mc;
    forall regs: File, t: Reg | t in want ensures Exec(mc', regs)[t] == regs[Earlier(want, m)[t]] {
      var next: File := regs[m.dst := regs[m.src]];
      assert Exec(mc', regs) == Exec(mc, next);
      assert Exec(mc, next)[t] == next[want[t]];
    }
  }

  // ----- the assignment of pending references to registers

  ghost predicate Injective(cur: map<Reg, Reg>)
  {
    forall a, b {:trigger cur[a], cur[b]} :: a in cur && b in cur && cur[a] == cur[b] ==> a == b
  }

  /** cur maps every live parent register to the register its reference is expected in; all other registers are free. */
  ghost predicate Assigned(cur: map<Reg, Reg>, free: set<Reg>)
  {
    && cur.Keys <= RSET_ALL && cur.Values <= RSET_ALL && free == RSET_ALL - cur.Values
    && (forall a {:trigger cur[a]} :: a in cur ==> Alike(a, cur[a]))
    && Injective(cur)
  }

  lemma {:induction false} ImageSize(cur: map<Reg, Reg>)
    requires Injective(cur)
    ensures |cur.Values| == |cur.Keys|
  {
    if cur.Keys != {} {
      var a :| a in cur.Keys;
      RestValues(cur, a);
      ImageSize(cur - {a});
      assert cur.Keys == (cur - {a}).Keys + {a};
    }
  }

  lemma RestValues(cur: map<Reg, Reg>, a: Reg)
    requires Injective(cur) && a in cur
    ensures Injective(cur - {a}) && cur.Values == (cur - {a}).Values + {cur[a]} && cur[a] !in (cur - {a}).Values
  {
    var rest := cur - {a};
    forall v | v in cur.Values ensures v in rest.Values + {cur[a]} {
      var b :| b in cur && cur[b] == v;
      if b != a { assert rest[b] == v; }
    }
  }

  lemma SameSize<T>(a: set<T>, b: set<T>)
    requires a <= b && |a| == |b|
    ensures a == b
  {
    assert b == a + (b - a) && |b| == |a| + |b - a|;
  }

  lemma AtMost<T>(a: set<T>, b: set<T>)
    requires a <= b
    ensures |a| <= |b|
  {
    assert b == a + (b - a);
  }

  /** When no live register is free, the live registers are a permutation of each other. */
  lemma Cycles(cur: map<Reg, Reg>, free: set<Reg>)
    requires Assigned(cur, free) && free * cur.Keys == {}
    ensures cur.Keys == cur.Values
  {
    ImageSize(cur);
    assert cur.Keys <= free + cur.Values;
    assert forall a :: a in free ==> a !in free * cur.Keys ==> a !in cur.Keys;
    SameSize(cur.Keys, cur.Values);
  }

  lemma CoalesceAssigned(cur: map<Reg, Reg>, free: set<Reg>, rp: Reg)
    requires Assigned(cur, free) && rp in cur
    ensures Assigned(cur - {rp}, free + {cur[rp]})
  {
    var cur' := cur - {rp};
    assert cur'.Values == cur.Values - {cur[rp]} by {
      forall v | v in cur.Values - {cur[rp]} ensures v in cur'.Values {
        var b :| b in cur && cur[b] == v;
        assert cur'[b] == v;
      }
    }
  }

  lemma RenameAssigned(cur: map<Reg, Reg>, free: set<Reg>, rp: Reg, up: Reg)
    requires Assigned(cur, free) && rp in cur && up in free && Alike(cur[rp], up)
    ensures Assigned(cur[rp := up], free + {cur[rp]} - {up})
  {
    var cur' := cur[rp := up];
    assert cur'.Values == cur.Values - {cur[rp]} + {up} by {
      forall v | v in cur.Values - {cur[rp]} + {up} ensures v in cur'.Values {
        if v == up {
          assert cur'[rp] == v;
        } else {
          var b :| b in cur && cur[b] == v;
          assert cur'[b] == v;
        }
      }
    }
  }

  // ----- what the loop keeps

  /** The registers of a kind that can serve as a temporary: free, not a parent register, not a target. */
  function Temps(tgt: map<Reg, Reg>, allow: set<Reg>, kind: set<Reg>): set<Reg>
  {
    (RSET_ALL - tgt.Values) * (RSET_ALL - tgt.Keys) * allow * kind
  }

  /** Some parent registers of this kind are each other's targets. */
  ghost predicate Core(tgt: map<Reg, Reg>, kind: set<Reg>, s: set<Reg>)
  {
    s <= tgt.Keys * kind && forall a {:trigger a in s} :: a in s ==> exists b :: b in s && tgt[b] == a
  }

  /** The condition under which the trace is given up: a cycle and no temporary to break it with. */
  ghost predicate Stuck(tgt: map<Reg, Reg>, allow: set<Reg>, kind: set<Reg>)
  {
    Temps(tgt, allow, kind) == {} && exists s :: s != {} && Core(tgt, kind, s)
  }

  /** Registers that already hold what is expected of them and must be left alone. */
  function Kept(tgt: map<Reg, Reg>, allow: set<Reg>): set<Reg>
  {
    RSET_ALL - tgt.Values - tgt.Keys - allow
  }

  /** Targets are not allowed as temporaries (they were taken out of allow when they were collected). */
  ghost predicate Start(tgt: map<Reg, Reg>, allow: set<Reg>)
  {
    Assigned(tgt, RSET_ALL - tgt.Values) && tgt.Values !! allow && allow <= RSET_ALL
  }

  /** What is pending: references renamed to a temporary sit outside the parent registers, finished parent registers
      stay free. */
  ghost predicate Pending(tgt: map<Reg, Reg>, allow0: set<Reg>, cur: map<Reg, Reg>, free: set<Reg>, allow: set<Reg>)
  {
    && Start(tgt, allow0) && Assigned(cur, free) && cur.Keys <= tgt.Keys && allow == allow0 - (tgt.Keys - cur.Keys)
    && (forall a {:trigger cur[a]} :: a in cur ==>
         cur[a] == tgt[a] || cur[a] in RSET_ALL - tgt.Keys - Kept(tgt, allow0))
    && Kept(tgt, allow0) <= free && tgt.Keys - cur.Keys <= free
  }

  /** What the code so far expects: targets look where their reference is now, kept registers at themselves. */
  ghost predicate Expects(tgt: map<Reg, Reg>, keep: set<Reg>, cur: map<Reg, Reg>, want: map<Reg, Reg>)
  {
    && want.Keys == tgt.Values + keep
    && (forall a {:trigger tgt[a]} :: a in tgt ==> want[tgt[a]] == if a in cur then cur[a] else a)
    && (forall r {:trigger want[r]} :: r in keep ==> want[r] == r)
  }

  lemma StartShuffling(tgt: map<Reg, Reg>, allow: set<Reg>)
    requires Start(tgt, allow)
    ensures Pending(tgt, allow, tgt, RSET_ALL - tgt.Values, allow)
    ensures var want := map r | r in tgt.Values + Kept(tgt, allow) :: r;
            Expects(tgt, Kept(tgt, allow), tgt, want) && Delivers([], want)
  {
  }

  /** A move into the register of one pending reference changes only where that reference is looked for. */
  lemma Redirect(tgt: map<Reg, Reg>, allow0: set<Reg>, cur: map<Reg, Reg>, free: set<Reg>, allow: set<Reg>,
                 want: map<Reg, Reg>, rp: Reg, src: Reg)
    requires Pending(tgt, allow0, cur, free, allow) && Expects(tgt, Kept(tgt, allow0), cur, want) && rp in cur
    ensures Expects(tgt, Kept(tgt, allow0), cur[rp := src], Earlier(want, Move(cur[rp], src)))
  {
    var want' := Earlier(want, Move(cur[rp], src));
    assert cur[rp] in cur.Values && cur[rp] !in free;
    forall a | a in tgt ensures want'[tgt[a]] == if a in cur[rp := src] then cur[rp := src][a] else a {
      if a in cur && cur[a] == cur[rp] { assert a == rp; }
      if a !in cur { assert a in tgt.Keys - cur.Keys; }
    }
    forall r | r in Kept(tgt, allow0) ensures want'[r] == r {
      assert want[r] == r;
    }
  }

  /** A free parent register takes over from the target of its reference. */
  lemma CoalesceStep(tgt: map<Reg, Reg>, allow0: set<Reg>, cur: map<Reg, Reg>, free: set<Reg>, allow: set<Reg>,
                     want: map<Reg, Reg>, rp: Reg)
    requires Pending(tgt, allow0, cur, free, allow) && Expects(tgt, Kept(tgt, allow0), cur, want) && rp in cur &&
             rp in free
    ensures Pending(tgt, allow0, cur - {rp}, free + {cur[rp]}, allow - {rp})
    ensures Expects(tgt, Kept(tgt, allow0), cur - {rp}, Earlier(want, Move(cur[rp], rp)))
  {
    CoalesceAssigned(cur, free, rp);
    Redirect(tgt, allow0, cur, free, allow, want, rp, rp);
  }

  /** The reference behind rp moves from its target to a temporary. */
  lemma RenameStep(tgt: map<Reg, Reg>, allow0: set<Reg>, cur: map<Reg, Reg>, free: set<Reg>, allow: set<Reg>,
                   want: map<Reg, Reg>, rp: Reg, up: Reg)
    requires Pending(tgt, allow0, cur, free, allow) && Expects(tgt, Kept(tgt, allow0), cur, want) && rp in cur
    requires up in free && up !in cur.Keys && up in allow && Alike(cur[rp], up)
    ensures Pending(tgt, allow0, cur[rp := up], free + {cur[rp]} - {up}, allow)
    ensures Expects(tgt, Kept(tgt, allow0), cur[rp := up], Earlier(want, Move(cur[rp], up)))
  {
    RenameAssigned(cur, free, rp, up);
    Redirect(tgt, allow0, cur, free, allow, want, rp, up);
  }

  /** When only cycles are left, no renamed reference is pending, and the free registers a rename may use are the
      ones known from the start. */
  lemma AtRest(tgt: map<Reg, Reg>, allow0: set<Reg>, cur: map<Reg, Reg>, free: set<Reg>, allow: set<Reg>,
               kind: set<Reg>)
    requires Pending(tgt, allow0, cur, free, allow) && free * cur.Keys == {} && (kind == RSET_GPR || kind == RSET_FPR)
    ensures free * allow * kind - cur.Keys == Temps(tgt, allow0, kind)
    ensures Core(tgt, kind, cur.Keys * kind)
  {
    Cycles(cur, free);
    forall a | a in cur.Keys * kind ensures exists b :: b in cur.Keys * kind && tgt[b] == a {
      var b :| b in cur && cur[b] == a;
      assert b in cur.Keys * kind && tgt[b] == a;
    }
  }

  /** A cycle of a kind without temporaries stays untouched. */
  ghost predicate Untouched(tgt: map<Reg, Reg>, allow0: set<Reg>, cur: map<Reg, Reg>, kind: set<Reg>)
  {
    Temps(tgt, allow0, kind) == {} ==>
      forall s {:trigger Core(tgt, kind, s)} :: Core(tgt, kind, s) ==>
        forall a {:trigger a in s} :: a in s ==> a in cur && cur[a] == tgt[a]
  }

  lemma CoalesceUntouched(tgt: map<Reg, Reg>, allow0: set<Reg>, cur: map<Reg, Reg>, free: set<Reg>, kind: set<Reg>,
                          rp: Reg)
    requires Untouched(tgt, allow0, cur, kind) && Assigned(cur, free) && rp in free
    ensures Untouched(tgt, allow0, cur - {rp}, kind)
  {
    if Temps(tgt, allow0, kind) == {} {
      forall s, a | Core(tgt, kind, s) && a in s ensures a != rp {
        var b :| b in s && tgt[b] == a;
        assert cur[b] == a;
      }
    }
  }

  lemma RenameUntouched(tgt: map<Reg, Reg>, allow0: set<Reg>, cur: map<Reg, Reg>, kind: set<Reg>, rp: Reg, up: Reg,
                        other: set<Reg>)
    requires Untouched(tgt, allow0, cur, other) && Temps(tgt, allow0, kind) != {} && rp in kind
    requires (kind == RSET_GPR || kind == RSET_FPR) && (other == RSET_GPR || other == RSET_FPR)
    ensures Untouched(tgt, allow0, cur[rp := up], other)
  {
    if Temps(tgt, allow0, other) == {} {
      forall s, a | Core(tgt, other, s) && a in s ensures a != rp {
        assert a in other;
      }
    }
  }

  /** Nothing is left to do, so there was no cycle without a temporary. */
  lemma NotStuck(tgt: map<Reg, Reg>, allow0: set<Reg>, kind: set<Reg>)
    requires Untouched(tgt, allow0, map[], kind)
    ensures !Stuck(tgt, allow0, kind)
  {
    assert Temps(tgt, allow0, kind) == {} ==> forall s :: Core(tgt, kind, s) ==> s == {};
  }

  /** The choice a rename may make: some pending reference in a live register of this kind moves to a temporary of
      this kind. */
  predicate Renamed(cur: map<Reg, Reg>, free: set<Reg>, live: set<Reg>, allow: set<Reg>, kind: set<Reg>, a: Reg,
                    up: Reg)
  {
    a in cur && cur[a] in live * kind && up in free * allow * kind - live
  }

  /** The task of a shuffle: parent registers and their targets, the registers allowed as temporaries, the IR
      reference behind each parent register, and the code that runs afterwards. */
  datatype Goal = Goal(tgt: map<Reg, Reg>, allow: set<Reg>, sload: seq<nat>, rest: seq<Move>)

  datatype Now = Now(cur: map<Reg, Reg>, want: map<Reg, Reg>)

  /** Every target receives the value its parent register had, whatever the registers hold; kept registers keep
      theirs. */
  ghost predicate ParallelCopy(mc: seq<Move>, tgt: map<Reg, Reg>, keep: set<Reg>)
  {
    && (forall regs: File, a: Reg {:trigger Exec(mc, regs), tgt[a]} :: a in tgt ==> Exec(mc, regs)[tgt[a]] == regs[a])
    && (forall regs: File, r: Reg {:trigger Exec(mc, regs)[r]} :: r in keep ==> Exec(mc, regs)[r] == regs[r])
  }

  lemma Finished(tgt: map<Reg, Reg>, keep: set<Reg>, mc: seq<Move>, want: map<Reg, Reg>)
    requires Expects(tgt, keep, map[], want) && Delivers(mc, want)
    ensures ParallelCopy(mc, tgt, keep)
  {
    forall regs: File, a: Reg | a in tgt ensures Exec(mc, regs)[tgt[a]] == regs[a] {
      assert tgt[a] in tgt.Values && want[tgt[a]] == a;
    }
    forall regs: File, r: Reg | r in keep ensures Exec(mc, regs)[r] == regs[r] {
      assert r in want && want[r] == r;
    }
  }

  // ----- one step of the shuffle, on values

  /** What holds throughout the shuffle; moves are those emitted by it. */
  ghost predicate Sound(g: Goal, now: Now, moves: seq<Move>, allow: set<Reg>, free: set<Reg>)
  {
    forall k: int {:trigger Look(k)} :: Look(k) ==>
      && Pending(g.tgt, g.allow, now.cur, free, allow) && Expects(g.tgt, Kept(g.tgt, g.allow), now.cur, now.want)
      && Untouched(g.tgt, g.allow, now.cur, RSET_GPR) && Untouched(g.tgt, g.allow, now.cur, RSET_FPR)
      && Delivers(moves, now.want)
  }

  lemma SoundAtFirst(tgt: map<Reg, Reg>, allow: set<Reg>, sload: seq<nat>, rest: seq<Move>) returns (now: Now)
    requires Start(tgt, allow)
    ensures now.cur == tgt && Sound(Goal(tgt, allow, sload, rest), now, [], allow, RSET_ALL - tgt.Values)
  {
    StartShuffling(tgt, allow);
    now := Now(tgt, map r | r in tgt.Values + Kept(tgt, allow) :: r);
  }

  lemma SoundCoalesce(g: Goal, now: Now, moves: seq<Move>, allow: set<Reg>, free: set<Reg>, rp: Reg) returns (now': Now)
    requires Sound(g, now, moves, allow, free) && rp in now.cur && rp in free
    ensures now'.cur == now.cur - {rp}
    ensures Sound(g, now', [Move(now.cur[rp], rp)] + moves, allow - {rp}, free + {now.cur[rp]})
  {
    assert Look(0);
    var m := Move(now.cur[rp], rp);
    CoalesceStep(g.tgt, g.allow, now.cur, free, allow, now.want, rp);
    CoalesceUntouched(g.tgt, g.allow, now.cur, free, RSET_GPR, rp);
    CoalesceUntouched(g.tgt, g.allow, now.cur, free, RSET_FPR, rp);
    EmitDelivers(moves, now.want, m);
    now' := Now(now.cur - {rp}, Earlier(now.want, m));
  }

  lemma SoundRename(g: Goal, now: Now, moves: seq<Move>, allow: set<Reg>, free: set<Reg>, kind: set<Reg>, a: Reg,
                    up: Reg) returns (now': Now)
    requires Sound(g, now, moves, allow, free) && Renamed(now.cur, free, now.cur.Keys, allow, kind, a, up)
    requires (kind == RSET_GPR || kind == RSET_FPR) && Temps(g.tgt, g.allow, kind) != {}
    ensures now'.cur == now.cur[a := up]
    ensures Sound(g, now', [Move(now.cur[a], up)] + moves, allow, free + {now.cur[a]} - {up})
  {
    assert Look(0);
    var m := Move(now.cur[a], up);
    assert Alike(a, now.cur[a]) && a in kind;
    RenameStep(g.tgt, g.allow, now.cur, free, allow, now.want, a, up);
    RenameUntouched(g.tgt, g.allow, now.cur, kind, a, up, RSET_GPR);
    RenameUntouched(g.tgt, g.allow, now.cur, kind, a, up, RSET_FPR);
    EmitDelivers(moves, now.want, m);
    now' := Now(now.cur[a := up], Earlier(now.want, m));
  }

  /** What is known about each kind of register when only cycles are left. */
  ghost predicate Blocked(g: Goal, cur: map<Reg, Reg>, allow: set<Reg>, free: set<Reg>, kind: set<Reg>)
  {
    forall k: int {:trigger Look(k)} :: Look(k) ==> Rests(g, cur, allow, free, kind)
  }

  ghost predicate Rests(g: Goal, cur: map<Reg, Reg>, allow: set<Reg>, free: set<Reg>, kind: set<Reg>)
  {
    && free * kind * cur.Keys == {} && cur.Keys * kind <= cur.Values
    && free * allow * kind - cur.Keys == Temps(g.tgt, g.allow, kind)
    && (cur.Keys * kind != {} && Temps(g.tgt, g.allow, kind) == {} ==> Stuck(g.tgt, g.allow, kind))
  }

  lemma SoundBlocked(g: Goal, now: Now, moves: seq<Move>, allow: set<Reg>, free: set<Reg>)
    requires Sound(g, now, moves, allow, free) && free * now.cur.Keys == {}
    ensures Blocked(g, now.cur, allow, free, RSET_GPR) && Blocked(g, now.cur, allow, free, RSET_FPR)
    ensures now.cur.Keys == now.cur.Keys * RSET_GPR + now.cur.Keys * RSET_FPR
  {
    IsBlocked(g, now, moves, allow, free, RSET_GPR);
    IsBlocked(g, now, moves, allow, free, RSET_FPR);
    assert now.cur.Keys <= RSET_ALL by { assert Look(0); }
  }

  lemma IsBlocked(g: Goal, now: Now, moves: seq<Move>, allow: set<Reg>, free: set<Reg>, kind: set<Reg>)
    requires Sound(g, now, moves, allow, free) && free * now.cur.Keys == {} && (kind == RSET_GPR || kind == RSET_FPR)
    ensures Blocked(g, now.cur, allow, free, kind)
  {
    assert Look(0);
    Cycles(now.cur, free);
    AtRest(g.tgt, g.allow, now.cur, free, allow, kind);
    assert free * kind * now.cur.Keys <= free * now.cur.Keys;
    assert Rests(g, now.cur, allow, free, kind);
  }

  /** Renaming a register of one kind changes nothing for the other kind. */
  lemma StillBlocked(g: Goal, cur: map<Reg, Reg>, allow: set<Reg>, free: set<Reg>, a: Reg, up: Reg, other: set<Reg>)
    requires Blocked(g, cur, allow, free, other) && a in cur && cur[a] !in other && up !in other
    ensures Blocked(g, cur[a := up], allow, free + {cur[a]} - {up}, other)
  {
    assert Look(0);
    var cur', free' := cur[a := up], free + {cur[a]} - {up};
    assert free' * other == free * other && free' * allow * other - cur'.Keys == free * allow * other - cur.Keys;
    forall v | v in cur'.Keys * other ensures v in cur'.Values {
      assert v in cur.Keys * other;
      var b :| b in cur && cur[b] == v;
      assert cur'[b] == v;
    }
  }

  lemma NoTemporary(g: Goal, cur: map<Reg, Reg>, allow: set<Reg>, free: set<Reg>, kind: set<Reg>)
    requires Blocked(g, cur, allow, free, kind) && cur.Keys * kind != {} && free * allow * kind - cur.Keys == {}
    ensures Stuck(g.tgt, g.allow, kind)
  {
    assert Look(0);
  }

  ghost predicate NoneFree(cur: map<Reg, Reg>, free: set<Reg>)
  {
    forall b {:trigger cur[b]} :: b in cur ==> cur[b] !in free
  }

  /** A rename frees a live register and takes none. */
  lemma FewerBlocked(live: set<Reg>, free: set<Reg>, down: Reg, up: Reg)
    requires down in live && down !in free && up !in live
    ensures |live - (free + {down} - {up})| < |live - free|
  {
    assert live - free == (live - (free + {down} - {up})) + {down};
  }

  /** Some pending reference is in the live register down. */
  lemma WhoIsIn(g: Goal, now: Now, moves: seq<Move>, allow: set<Reg>, free: set<Reg>, kind: set<Reg>, down: Reg)
    returns (a: Reg)
    requires Sound(g, now, moves, allow, free) && Blocked(g, now.cur, allow, free, kind) && down in now.cur.Keys * kind
    ensures a in now.cur && now.cur[a] == down && down !in free && Injective(now.cur) && NoneFree(now.cur, free)
  {
    assert Look(0);
    assert down in now.cur.Values;
    a :| a in now.cur && now.cur[a] == down;
    assert forall b :: b in now.cur ==> now.cur[b] in now.cur.Values;
  }

  /** All a rename of down to up does to the values; a is the parent register whose reference is in down. */
  lemma RenameChoice(g: Goal, now: Now, moves: seq<Move>, allow: set<Reg>, free: set<Reg>, kind: set<Reg>,
                     other: set<Reg>, down: Reg, up: Reg)
    returns (a: Reg, now': Now)
    requires Sound(g, now, moves, allow, free) && Blocked(g, now.cur, allow, free, kind)
    requires down in now.cur.Keys * kind && up in free * allow * kind - now.cur.Keys
    requires (kind == RSET_GPR && other == RSET_FPR) || (kind == RSET_FPR && other == RSET_GPR)
    ensures a in now.cur && now.cur[a] == down && Injective(now.cur) && Alike(down, up) && NoneFree(now.cur, free)
    ensures now'.cur == now.cur[a := up] && now'.cur.Keys == now.cur.Keys
    ensures Sound(g, now', [Move(down, up)] + moves, allow, free + {down} - {up})
    ensures Blocked(g, now.cur, allow, free, other) ==> Blocked(g, now'.cur, allow, free + {down} - {up}, other)
    ensures |now.cur.Keys - (free + {down} - {up})| < |now.cur.Keys - free|
  {
    a := WhoIsIn(g, now, moves, allow, free, kind, down);
    SomeTemporary(g, now.cur, allow, free, kind, up);
    now' := SoundRename(g, now, moves, allow, free, kind, a, up);
    if Blocked(g, now.cur, allow, free, other) { StillBlocked(g, now.cur, allow, free, a, up, other); }
    FewerBlocked(now.cur.Keys, free, down, up);
  }

  lemma SomeTemporary(g: Goal, cur: map<Reg, Reg>, allow: set<Reg>, free: set<Reg>, kind: set<Reg>, up: Reg)
    requires Blocked(g, cur, allow, free, kind) && up in free * allow * kind - cur.Keys
    ensures Temps(g.tgt, g.allow, kind) != {}
  {
    assert Look(0);
  }

  lemma SoundFinished(g: Goal, now: Now, moves: seq<Move>, allow: set<Reg>, free: set<Reg>)
    requires Sound(g, now, moves, allow, free) && now.cur.Keys == {}
    ensures !Stuck(g.tgt, g.allow, RSET_GPR) && !Stuck(g.tgt, g.allow, RSET_FPR)
    ensures free == RSET_ALL && ParallelCopy(moves, g.tgt, Kept(g.tgt, g.allow))
  {
    assert Look(0);
    assert now.cur == map[];
    NotStuck(g.tgt, g.allow, RSET_GPR);
    NotStuck(g.tgt, g.allow, RSET_FPR);
    Finished(g.tgt, Kept(g.tgt, g.allow), moves, now.want);
  }

  lemma InFront(m: Move, moves: seq<Move>, rest: seq<Move>)
    ensures [m] + (moves + rest) == [m] + moves + rest
  {
  }

  // ----- the assembler state

  /** An IR instruction: its register and its spill slot (0 means none). */
  datatype Ins = Ins(r: Reg, s: nat, is64: bool)

  method PickBot(rs: set<Reg>) returns (r: Reg)
    requires rs != {}
    ensures r in rs && forall x {:trigger x in rs} :: x in rs ==> r <= x
  {
    ghost var any :| any in rs;
    r := 0;
    while r !in rs
      invariant r <= any && forall x {:trigger x in rs} :: x in rs ==> r <= x
      decreases any - r
    {
      r := r + 1;
    }
  }

  // ----- spill slots

  const MAX_SLOT := 256

  function Width(x: Ins): nat { if x.is64 then 2 else 1 }

  /** The slots of two spilled instructions have nothing in common. */
  predicate ApartSlots(x: Ins, y: Ins)
  {
    x.s != 0 && y.s != 0 ==> x.s + Width(x) <= y.s || y.s + Width(y) <= x.s
  }

  /** A spilled instruction lies below even and leaves the odd slot kept in reserve alone; 64 bit slots are even. */
  predicate SlotOk(x: Ins, even: nat, odd: nat)
  {
    x.s != 0 ==> 2 <= x.s && x.s + Width(x) <= even && (x.is64 ==> x.s % 2 == 0) && (x.s > odd || x.s + Width(x) <= odd)
  }

  /** No two instructions share a spill slot, and the next slots to hand out are unused. */
  ghost predicate SlotsOk(ins: seq<Ins>, even: nat, odd: nat)
  {
    && even % 2 == 0 && even >= 2 && (odd == 0 || (2 < odd < even && odd % 2 == 1))
    && (forall i {:trigger ins[i]} :: 0 <= i < |ins| ==> SlotOk(ins[i], even, odd))
    && forall i, j {:trigger ins[i], ins[j]} :: 0 <= i < j < |ins| ==> ApartSlots(ins[i], ins[j])
  }

  class AsmState {
    var freeset: set<Reg>
    var modset: set<Reg>
    var weakset: set<Reg>
    var mcode: seq<Move>
    var renames: seq<(Reg, nat)>
    var evenspill: nat
    var oddspill: nat
    const cost: array<nat>
    const ir: array<Ins>

    /** A trace of n instructions, none of which has a register or a slot; the first slots are reserved. */
    constructor (n: nat, reserved: nat, wide: seq<bool>)
      requires reserved >= 2 && |wide| == n
      ensures freeset == RSET_ALL && mcode == [] && renames == [] && cost.Length == 16 && ir.Length == n
      ensures SlotsOk(ir[..], evenspill, oddspill) && reserved <= evenspill <= reserved + 1 &&
              (oddspill != 0 ==> reserved <= oddspill)
    {
      freeset, modset, weakset, mcode, renames := RSET_ALL, {}, {}, [], [];
      evenspill, oddspill := reserved, 0;
      if reserved % 2 == 1 { evenspill, oddspill := reserved + 1, reserved; }
      cost := new nat[16](_ => 0);
      ir := new Ins[n](i requires 0 <= i < n => Ins(0, 0, wide[i]));
    }

    /** ra_spill: the instruction's slot, newly taken if it has none; the slot survives being stored in a byte. */
    method Spill(ref: nat) returns (overflow: bool, offset: nat)
      requires ref < ir.Length && SlotsOk(ir[..], evenspill, oddspill)
      modifies this`evenspill, this`oddspill, ir
      ensures old(ir[ref].s) != 0 ==>
                !overflow && evenspill == old(evenspill) && oddspill == old(oddspill) && ir[..] == old(ir[..])
      ensures overflow <==>
                old(ir[ref].s == 0 && evenspill + (if ir[ref].is64 || oddspill == 0 then 2 else 0) > MAX_SLOT)
      ensures !overflow ==> SlotsOk(ir[..], evenspill, oddspill) && ir[ref].s != 0 && offset == 4 * ir[ref].s
      ensures !overflow ==> ir[..] == old(ir[..])[ref := old(ir[ref]).(s := ir[ref].s)]
      ensures !overflow && old(ir[ref].s) == 0 ==>
                ir[ref].s == old(if ir[ref].is64 || oddspill == 0 then evenspill else oddspill)
    {
      var slot := ir[ref].s;
      overflow := false;
      if slot == 0 {
        if ir[ref].is64 {
          slot := evenspill;
          evenspill := evenspill + 2;
        } else if oddspill != 0 {
          slot := oddspill;
          oddspill := 0;
        } else {
          slot := evenspill;
          oddspill := slot + 1;
          evenspill := evenspill + 2;
        }
        if evenspill > MAX_SLOT { return true, 0; }
        ir[ref] := ir[ref].(s := slot % 256);
      }
      offset := 4 * slot;
    }

    method Emit(dst: Reg, src: Reg)
      modifies this`mcode
      ensures mcode == [Move(dst, src)] + old(mcode)
    {
      mcode := [Move(dst, src)] + mcode;
    }

    /** ra_rename: the reference in down is expected in up from now on. */
    method Rename(down: Reg, up: Reg)
      requires cost.Length == 16 && cost[down] < ir.Length && Alike(down, up)
      requires down !in freeset && up in freeset
      modifies this, cost, ir
      ensures mcode == [Move(down, up)] + old(mcode) && freeset == old(freeset) + {down} - {up}
      ensures modset == old(modset) + {down} && weakset == old(weakset) - {up}
      ensures cost[..] == old(cost[..][up := cost[down]][down := 0])
      ensures ir[..] == old(ir[..][cost[down] := ir[cost[down]].(r := up)])
      ensures renames == old(renames) + if old(ir[cost[down]].s) != 0 then [] else [(down, old(cost[down]))]
    {
      cost[up] := cost[down];
      var ref := cost[up];
      ir[ref] := ir[ref].(r := up);
      cost[down] := 0;
      freeset := freeset + {down};
      modset := modset + {down};
      freeset := freeset - {up};
      weakset := weakset - {up};
      Emit(down, up);
      if ir[ref].s == 0 { renames := renames + [(down, ref)]; }
    }

    /** The references behind the parent registers in cur are in the registers cur names. */
    ghost predicate Tracks(cur: map<Reg, Reg>, sload: seq<nat>)
      reads this, cost, ir
    {
      cost.Length == 16 && |sload| == 16 && forall a {:trigger cur[a]} :: a in cur ==>
        sload[a] < ir.Length && ir[sload[a]].r == cur[a] && cost[cur[a]] == sload[a]
    }

    /** Coalesce: the parent register rp takes over from the target of its reference. */
    method Coalesce(rp: Reg, ref: nat)
      requires ref < ir.Length
      modifies this`freeset, this`mcode
      ensures freeset == old(freeset) + {ir[ref].r} && mcode == [Move(ir[ref].r, rp)] + old(mcode)
    {
      freeset := freeset + {ir[ref].r};
      Emit(ir[ref].r, rp);
    }

    /** The code is what the shuffle emitted so far, in front of the rest, and the fields match the values. */
    ghost predicate At(g: Goal, now: Now, moves: seq<Move>, allow: set<Reg>)
      reads this, cost, ir
    {
      Tracks(now.cur, g.sload) && Sound(g, now, moves, allow, freeset) && mcode == moves + g.rest
    }

    /** One turn of the coalescing loop. */
    method CoalesceOne(rp: Reg, sload: seq<nat>, ghost allow: set<Reg>, ghost g: Goal, ghost now: Now,
                       ghost moves: seq<Move>)
      returns (ghost now': Now, ghost moves': seq<Move>)
      requires At(g, now, moves, allow) && sload == g.sload && rp in now.cur && rp in freeset
      modifies this
      ensures At(g, now', moves', allow - {rp}) && now'.cur == now.cur - {rp} && |moves'| == |moves| + 1
      ensures freeset == old(freeset) + {now.cur[rp]}
    {
      now' := SoundCoalesce(g, now, moves, allow, freeset, rp);
      Coalesce(rp, sload[rp]);
      moves' := [Move(now.cur[rp], rp)] + moves;
      InFront(Move(now.cur[rp], rp), moves, g.rest);
    }

    /** Coalesce until no live parent register is free. */
    method CoalesceFree(sload: seq<nat>, live0: set<Reg>, allow0: set<Reg>, ghost g: Goal, ghost now0: Now,
                        ghost moves0: seq<Move>)
      returns (live: set<Reg>, allow: set<Reg>, ghost now: Now, ghost moves: seq<Move>)
      requires live0 == now0.cur.Keys && sload == g.sload && At(g, now0, moves0, allow0)
      modifies this
      ensures live == now.cur.Keys && At(g, now, moves, allow) && freeset * live == {}
      ensures |moves| + |live| + |live - freeset| <= |moves0| + |live0| + |live0 - old(freeset)| && |moves| >= |moves0|
    {
      live, allow, now, moves := live0, allow0, now0, moves0;
      while true
        invariant live == now.cur.Keys && At(g, now, moves, allow)
        invariant |moves| + |live| + |live - freeset| <= |moves0| + |live0| + |live0 - old(freeset)| &&
                  |moves| >= |moves0|
        decreases |live|
      {
        var work := freeset * live;
        if work == {} { break; }
        var rp := PickBot(work);
        ghost var blocked := live - freeset;
        now, moves := CoalesceOne(rp, sload, allow, g, now, moves);
        live, allow := live - {rp}, allow - {rp};
        AtMost(live - freeset, blocked);
      }
    }

    /** One rename of the outer loop (ra_rename), or NYICOAL when there is no temporary of this kind. */
    method BreakCycle(sload: seq<nat>, live: set<Reg>, allow: set<Reg>, kind: set<Reg>, ghost other: set<Reg>,
                      ghost g: Goal, ghost now: Now, ghost moves: seq<Move>)
      returns (err: bool, ghost now': Now, ghost moves': seq<Move>)
      requires live == now.cur.Keys && At(g, now, moves, allow) && sload == g.sload && live * kind != {}
      requires Blocked(g, now.cur, allow, freeset, kind)
      requires (kind == RSET_GPR && other == RSET_FPR) || (kind == RSET_FPR && other == RSET_GPR)
      modifies this, cost, ir
      ensures err ==> Stuck(g.tgt, g.allow, kind) && moves' == moves && mcode == old(mcode) && freeset == old(freeset)
      ensures !err ==>
                live == now'.cur.Keys && At(g, now', moves', allow) && |moves'| == |moves| + 1 &&
                  |live - freeset| < |live - old(freeset)|
      ensures !err && Blocked(g, now.cur, allow, old(freeset), other) ==> Blocked(g, now'.cur, allow, freeset, other)
    {
      var tmpset := freeset * allow * kind - live;
      err, now', moves' := tmpset == {}, now, moves;
      if err {
        NoTemporary(g, now.cur, allow, freeset, kind);
        return;
      }
      var down := PickBot(live * kind);
      var up := PickBot(tmpset);
      ghost var a;
      a, now' := RenameChoice(g, now, moves, allow, freeset, kind, other, down, up);
      moves' := [Move(down, up)] + moves;
      InFront(Move(down, up), moves, g.rest);
      RenameTracked(sload, a, down, up, now.cur);
    }

    method RenameTracked(sload: seq<nat>, ghost a: Reg, down: Reg, up: Reg, ghost cur: map<Reg, Reg>)
      requires Tracks(cur, sload) && Injective(cur) && NoneFree(cur, freeset) && a in cur && down == cur[a] &&
               up in freeset && Alike(down, up)
      modifies this, cost, ir
      ensures Tracks(cur[a := up], sload) && freeset == old(freeset) + {down} - {up} &&
              mcode == [Move(down, up)] + old(mcode)
    {
      Rename(down, up);
    }

    /** Break one cycle of each kind that is left. */
    method BreakCycles(sload: seq<nat>, live: set<Reg>, allow: set<Reg>, ghost g: Goal, ghost now: Now,
                       ghost moves: seq<Move>)
      returns (err: bool, ghost now': Now, ghost moves': seq<Move>)
      requires live == now.cur.Keys && At(g, now, moves, allow) && sload == g.sload && live != {} &&
               freeset * live == {}
      modifies this, cost, ir
      ensures err ==> (Stuck(g.tgt, g.allow, RSET_GPR) || Stuck(g.tgt, g.allow, RSET_FPR)) && mcode == moves' + g.rest
      ensures !err ==> live == now'.cur.Keys && At(g, now', moves', allow)
      ensures |moves| <= |moves'| && |moves'| + |live - freeset| <= |moves| + |live - old(freeset)|
      ensures !err ==> |live - freeset| < |live - old(freeset)|
    {
      SoundBlocked(g, now, moves, allow, freeset);
      err, now', moves' := false, now, moves;
      if live * RSET_GPR != {} {
        err, now', moves' := BreakCycle(sload, live, allow, RSET_GPR, RSET_FPR, g, now', moves');
        if err { return; }
      }
      if live * RSET_FPR != {} {
        err, now', moves' := BreakCycle(sload, live, allow, RSET_FPR, RSET_GPR, g, now', moves');
      }
    }

    /** The shuffle loop of asm_head_side. Run from its first instruction, the emitted code is a parallel copy of
        every live parent register to its target, and it leaves the registers alone that already hold what they
        should. */
    method Shuffle(sload: seq<nat>, live0: set<Reg>, allow0: set<Reg>, ghost tgt: map<Reg, Reg>)
      returns (err: bool, ghost moves: seq<Move>)
      requires live0 == tgt.Keys && Start(tgt, allow0) && Tracks(tgt, sload) && freeset == RSET_ALL - tgt.Values
      modifies this, cost, ir
      ensures err <==> Stuck(tgt, allow0, RSET_GPR) || Stuck(tgt, allow0, RSET_FPR)
      ensures mcode == moves + old(mcode) && |moves| <= 2 * |live0|
      ensures !err ==> freeset == RSET_ALL && ParallelCopy(moves, tgt, Kept(tgt, allow0))
    {
      var live, allow := live0, allow0;
      ghost var g := Goal(tgt, allow0, sload, mcode);
      ghost var now := SoundAtFirst(tgt, allow0, sload, mcode);
      moves := [];
      assert mcode == [] + mcode;
      AtMost(live - freeset, live);
      while true
        invariant live == now.cur.Keys && At(g, now, moves, allow)
        invariant |moves| + |live| + |live - freeset| <= 2 * |live0|
        decreases |live| + |live - freeset|
      {
        live, allow, now, moves := CoalesceFree(sload, live, allow, g, now, moves);
        if live == {} { break; }
        err, now, moves := BreakCycles(sload, live, allow, g, now, moves);
        if err { return; }
      }
      err := false;
      SoundFinished(g, now, moves, allow, freeset);
    }
  }
}
