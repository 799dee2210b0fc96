/** The abstract machine on 64-bit words: the whole of a program's run, and when it
    is the run on unbounded integers that the lowering theorems are about. */
module WordMachine {
  import opened Wrappers
  import opened Syntax
  import opened Typing
  import opened Semantics
  import opened Machine
  import opened Lowering
  import opened Correspondence
  import opened LoweringTheorems
  import opened WordCode

  function Step64(p: Program, m: State): Option<State> {
    if m.pc >= |p.code| || p.code[m.pc].Br? || p.code[m.pc].BrIf? then Step(p, m)
    else match Compute64(p.code[m.pc], m) case Some(m') => Some(m'.(pc := m.pc + 1)) case None => None
  }

  function Run64(p: Program, m: State, n: nat): Option<State>
    decreases n
  {
    if n == 0 then Some(m)
    else match Step64(p, m) case None => None case Some(m') => Run64(p, m', n - 1)
  }

  /** The next instruction computes a result that fits, if it computes any. */
  predicate ResultFits(p: Program, m: State) {
    m.pc < |p.code| && !p.code[m.pc].Br? && !p.code[m.pc].BrIf? ==>
      match Compute(p.code[m.pc], m)
      case Some(State(_, Push(w, _), _)) => Cut(p.code[m.pc], w) == w
      case _ => true
  }

  /** So do those of the first `n` steps. */
  predicate Fits(p: Program, m: State, n: nat)
    requires Run(p, m, n).Some?
    decreases n
  {
    n == 0 || (ResultFits(p, m) && Fits(p, Step(p, m).value, n - 1))
  }

  lemma StepOnWords(p: Program, m: State)
    ensures Step64(p, m).Some? <==> Step(p, m).Some?
    ensures Step64(p, m) == Step(p, m) <==> ResultFits(p, m)
  {
    hide Compute, Cut;
  }

  /** The two machines go through the same states for `n` steps. */
  ghost predicate Alike(p: Program, m: State, n: nat) {
    forall k: nat :: k <= n ==> Run64(p, m, k) == Run(p, m, k)
  }

  lemma AlikeNext(p: Program, m: State, n: nat)
    requires n > 0 && Step(p, m).Some?
    ensures Alike(p, m, n) <==> Step64(p, m) == Step(p, m) && Alike(p, Step(p, m).value, n - 1)
  {
    hide Step, Step64;
    var m1 := Step(p, m).value;
    if Alike(p, m, n) {
      assert Run64(p, m, 1) == Run(p, m, 1) && Step64(p, m).Some? && Run64(p, Step64(p, m).value, 0) == Run(p, m1, 0);
      forall k: nat | k <= n - 1 ensures Run64(p, m1, k) == Run(p, m1, k) {
        assert Run64(p, m, k + 1) == Run(p, m, k + 1);
      }
    }
    if Step64(p, m) == Step(p, m) && Alike(p, m1, n - 1) {
      forall k: nat | k <= n ensures Run64(p, m, k) == Run(p, m, k) {
        assert k > 0 ==> Run64(p, m1, k - 1) == Run(p, m1, k - 1);
      }
    }
  }

  /** They do exactly when every result on the way fits. */
  lemma {:induction false} RunsOnWords(p: Program, m: State, n: nat)
    requires Run(p, m, n).Some?
    ensures Fits(p, m, n) <==> Alike(p, m, n)
    decreases n
  {
    hide Step, Step64, ResultFits, Alike;
    StepOnWords(p, m);
    if n > 0 {
      AlikeNext(p, m, n);
      RunsOnWords(p, Step(p, m).value, n - 1);
    } else {
      NoSteps(p, m);
    }
  }

  lemma NoSteps(p: Program, m: State)
    ensures Alike(p, m, 0)
  {
  }

  /** A checked frame that ends runs on words as the source says, to the last
      instruction and step by step, if and only if no result on the way is cut; and
      it then stops there. */
  lemma ModuleOnWords(body: seq<Stmt>, env: Env, fuel: nat, st: Store, m: State) returns (n: nat, m': State)
    requires Loaded(env, m, st) && BlockOk(env.types, false, body) && ExecBlock(fuel, body, st).Done?
    ensures var p := CompModule(body, env);
      && Run(p, m, n) == Some(m')
      && (Fits(p, m, n) <==> Alike(p, m, n))
      && (Fits(p, m, n) ==> Run64(p, m, n) == Some(m') && Step64(p, m').None?)
    ensures m'.pc == |CompModule(body, env).code| && m'.stack == m.stack
    ensures Agrees(env, ExecBlock(fuel, body, st).st, m'.mem, {})
  {
    hide CompModule, Agrees, ExecBlock, BlockOk, Step64, Fits, Run64, Run;
    m' := ModuleRuns(body, env, fuel, st, m);
    var p := CompModule(body, env);
    n :| Run(p, m, n) == Some(m');
    RunsOnWords(p, m, n);
    StepOnWords(p, m');
  }
}
