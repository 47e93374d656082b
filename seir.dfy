/**
 * The SEIR compartmental model of `simulate_seir`: the right-hand side handed to the ODE
 * integrator, the initial state and time grid, and the new-case proxy derived from the
 * integrated I column. The integrated trajectory itself is an input.
 */
module Seir {

  datatype State = State(S: real, E: real, I: real, R: real)

  function Total(y: State): real
  {
    y.S + y.E + y.I + y.R
  }

  /** `seir_ode(y, t, N, beta, sigma, gamma)`. */
  function SeirOde(y: State, t: real, N: real, beta: real, sigma: real, gamma: real): (dy: State)
    requires N != 0.0
    ensures Total(dy) == 0.0
  {
    var infection := beta * y.S * y.I / N;
    State(-infection, infection - sigma * y.E, sigma * y.E - gamma * y.I, gamma * y.I)
  }

  /** Susceptibles never grow and the recovered never shrink under non-negative rates. */
  lemma SeirOdeSigns(y: State, t: real, N: real, beta: real, sigma: real, gamma: real)
    requires N != 0.0
    ensures beta >= 0.0 && y.S >= 0.0 && y.I >= 0.0 && N > 0.0 ==> SeirOde(y, t, N, beta, sigma, gamma).S <= 0.0
    ensures gamma >= 0.0 && y.I >= 0.0 ==> SeirOde(y, t, N, beta, sigma, gamma).R >= 0.0
  {
    if beta >= 0.0 && y.S >= 0.0 && y.I >= 0.0 && N > 0.0 {
      assert beta * y.S >= 0.0;
      assert beta * y.S * y.I >= 0.0;
      assert beta * y.S * y.I / N >= 0.0;
    }
  }

  /** The right-hand side does not depend on the time argument: the system is autonomous. */
  lemma SeirOdeAutonomous(y: State, t1: real, t2: real, N: real, beta: real, sigma: real, gamma: real)
    requires N != 0.0
    ensures SeirOde(y, t1, N, beta, sigma, gamma) == SeirOde(y, t2, N, beta, sigma, gamma)
  {
  }

  /** `y0 = (N - E0 - I0 - R0, E0, I0, R0)`. */
  function InitialState(N: int, E0: int, I0: int, R0: int): (y: State)
    ensures Total(y) == N as real
    ensures y.E == E0 as real && y.I == I0 as real && y.R == R0 as real
  {
    State((N - E0 - I0 - R0) as real, E0 as real, I0 as real, R0 as real)
  }

  /** `np.arange(0, days + 1)`: the days 0..days, empty when `days < 0`. */
  function TimeGrid(days: int): (t: seq<int>)
    ensures |t| == if days < 0 then 0 else days + 1
    ensures forall i :: 0 <= i < |t| ==> t[i] == i
  {
    if days < 0 then [] else seq(days + 1, i => i)
  }

  /** `np.maximum(0.0, np.diff(I, prepend=I[0]))`. */
  function NewCasesProxy(I: seq<real>): (c: seq<real>)
    requires |I| >= 1
    ensures |c| == |I|
    ensures c[0] == 0.0
    ensures forall t :: 1 <= t < |I| ==> c[t] == if I[t] - I[t - 1] < 0.0 then 0.0 else I[t] - I[t - 1]
    ensures forall t :: 0 <= t < |I| ==> c[t] >= 0.0
  {
    var diff := seq(|I|, t requires 0 <= t < |I| => if t == 0 then I[0] - I[0] else I[t] - I[t - 1]);
    seq(|I|, t requires 0 <= t < |I| => if diff[t] < 0.0 then 0.0 else diff[t])
  }

  /** The columns `simulate_seir` returns (the calendar dates are left out). */
  datatype Simulation = Simulation(S: seq<real>, E: seq<real>, I: seq<real>, R: seq<real>, newCases: seq<real>, t: seq<int>)

  /**
   * `simulate_seir` around a trajectory `ret` supplied for `odeint(seir_ode, InitialState(...), t, ...)`,
   * one state per day of the time grid; like every `odeint` result it starts at the initial state.
   */
  function SimulateSeir(N: int, E0: int, I0: int, R0: int, days: int, ret: seq<State>): (r: Simulation)
    requires days >= 0
    requires |ret| == days + 1
    requires ret[0] == InitialState(N, E0, I0, R0)
    ensures |r.S| == |r.E| == |r.I| == |r.R| == |r.newCases| == |r.t| == days + 1
    ensures forall k :: 0 <= k <= days ==>
      r.t[k] == k && State(r.S[k], r.E[k], r.I[k], r.R[k]) == ret[k] && r.newCases[k] >= 0.0
    ensures r.newCases[0] == 0.0
    ensures r.S[0] + r.E[0] + r.I[0] + r.R[0] == N as real
    ensures r.E[0] == E0 as real && r.I[0] == I0 as real && r.R[0] == R0 as real
    ensures forall k :: 1 <= k <= days ==> r.newCases[k] == if ret[k].I < ret[k - 1].I then 0.0 else ret[k].I - ret[k - 1].I
  {
    var t := TimeGrid(days);
    var I := seq(|ret|, k requires 0 <= k < |ret| => ret[k].I);
    Simulation(
      seq(|ret|, k requires 0 <= k < |ret| => ret[k].S),
      seq(|ret|, k requires 0 <= k < |ret| => ret[k].E),
      I,
      seq(|ret|, k requires 0 <= k < |ret| => ret[k].R),
      NewCasesProxy(I),
      t)
  }
}
