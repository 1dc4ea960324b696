/** What surrounds a reconciler: the calls it makes, the other writers, the cluster.  A
    property shown for an environment that does as it likes holds of every run; a
    cooperative one, with chosen calls refused, makes a run that can be followed. */
module Environment {

  /** Whatever: anything may happen.  Cooperative: nobody interferes and every call succeeds,
      except those refused. */
  datatype Env<Call(==)> = Whatever | Cooperative(refused: set<Call>)

  /** Whether a call succeeds. */
  method Granted<Call(==)>(env: Env<Call>, call: Call) returns (ok: bool)
    ensures env.Cooperative? ==> (ok <==> call !in env.refused)
  {
    if env.Cooperative? { return call !in env.refused; }
    ok := *;
  }
}
