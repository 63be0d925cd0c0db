/** The list of pending jobs: a stack without duplicates, from which any job can be withdrawn. */
module PendingJobs {

  import opened Lists

  /** Setting a job moves it to the top, wherever it was. */
  function Set<J(==)>(jobs: seq<J>, j: J): seq<J> {
    [j] + Without(jobs, j)
  }

  lemma SetMembers<J(!new)>(jobs: seq<J>, j: J)
    requires NoDup(jobs)
    ensures NoDup(Set(jobs, j)) && Set(jobs, j)[0] == j
    ensures forall k :: k in Set(jobs, j) <==> k in jobs || k == j
  {
    WithoutMembers(jobs, j);
    assert Set(jobs, j)[1..] == Without(jobs, j);
  }

  /** Setting a job puts it above every other pending one, and keeps the order of the others. */
  lemma SetAbove<J(!new)>(jobs: seq<J>, x: J, j: J, k: J)
    requires NoDup(jobs) && x != k
    ensures k in jobs ==> Above(Set(jobs, x), x, k)
    ensures Above(jobs, j, k) ==> Above(Set(jobs, x), j, k)
  {
    WithoutMembers(jobs, x);
    var r := Set(jobs, x);
    assert r[0] == x && r[1..] == Without(jobs, x);
    if Above(jobs, j, k) {
      AboveMembers(jobs, j, k);
      if x != j {
        WithoutAbove(jobs, x, j, k);
      }
    }
  }

  /** Running the top job keeps the order of the others. */
  lemma PopAbove<J(!new)>(jobs: seq<J>, j: J, k: J)
    requires Above(jobs, j, k) && jobs[0] != j
    ensures jobs[0] != k && Above(jobs[1..], j, k)
  {
  }

  // ---------- runs of the job list ----------

  datatype Op<J> = SetJob(job: J) | UnsetJob(job: J) | Execute

  function Apply<J(==)>(jobs: seq<J>, op: Op<J>): seq<J> {
    match op
    case SetJob(j) => Set(jobs, j)
    case UnsetJob(j) => Without(jobs, j)
    case Execute => if jobs == [] then [] else jobs[1..]
  }

  /** The jobs that are run by the operations, in order. */
  function Executed<J(==)>(jobs: seq<J>, ops: seq<Op<J>>): seq<J>
    decreases |ops|
  {
    if ops == [] then []
    else
      (if ops[0].Execute? && jobs != [] then [jobs[0]] else []) + Executed(Apply(jobs, ops[0]), ops[1..])
  }

  lemma ExecutedCons<J(!new)>(jobs: seq<J>, ops: seq<Op<J>>)
    requires ops != []
    ensures var rest := Executed(Apply(jobs, ops[0]), ops[1..]);
            Executed(jobs, ops) == if ops[0].Execute? && jobs != [] then [jobs[0]] + rest else rest
  {
    var rest := Executed(Apply(jobs, ops[0]), ops[1..]);
    assert [] + rest == rest;
  }

  /**
   * Jobs run last in, first out: of two pending jobs, the one set later has always run before the other runs,
   * unless it is withdrawn, however many jobs are set, withdrawn and run in between, as long as the other is
   * not set again.
   */
  lemma {:induction false} LastInFirstOut<J(!new)>(jobs: seq<J>, ops: seq<Op<J>>, j: J, k: J, n: nat)
    requires NoDup(jobs) && Above(jobs, j, k)
    requires SetJob(k) !in ops && UnsetJob(j) !in ops
    requires n < |Executed(jobs, ops)| && Executed(jobs, ops)[n] == k
    ensures j in Executed(jobs, ops)[..n]
    decreases |ops|
  {
    AboveMembers(jobs, j, k);
    assert ops != [];
    ExecutedCons(jobs, ops);
    hide Executed;
    var op := ops[0];
    assert ops == [op] + ops[1..];
    var jobs', rest := Apply(jobs, op), Executed(Apply(jobs, op), ops[1..]);
    match op
    case SetJob(x) =>
      SetMembers(jobs, x);
      SetAbove(jobs, x, j, k);
      LastInFirstOut(jobs', ops[1..], j, k, n);
    case UnsetJob(x) =>
      WithoutMembers(jobs, x);
      if x == k {
        NeverExecuted(jobs', ops[1..], k);
        assert false;
      } else {
        WithoutAbove(jobs, x, j, k);
        LastInFirstOut(jobs', ops[1..], j, k, n);
      }
    case Execute =>
      if jobs[0] == j {
        assert ([j] + rest)[..n][0] == j;
      } else {
        PopAbove(jobs, j, k);
        LastInFirstOut(jobs', ops[1..], j, k, n - 1);
        assert ([jobs[0]] + rest)[..n] == [jobs[0]] + rest[..n - 1];
      }
  }

  /** A job that is not pending and never set does not run. */
  lemma {:induction false} NeverExecuted<J(!new)>(jobs: seq<J>, ops: seq<Op<J>>, k: J)
    requires NoDup(jobs) && k !in jobs && SetJob(k) !in ops
    ensures k !in Executed(jobs, ops)
    decreases |ops|
  {
    if ops != [] {
      var op := ops[0];
      assert ops == [op] + ops[1..];
      if op.SetJob? {
        SetMembers(jobs, op.job);
      } else if op.UnsetJob? {
        WithoutMembers(jobs, op.job);
      }
      NeverExecuted(Apply(jobs, op), ops[1..], k);
    }
  }

  /** The job list as the program keeps it. */
  class PendingGroup<J(==,!new)> {
    var jobs: seq<J>

    ghost predicate Valid()
      reads this
    {
      NoDup(jobs)
    }

    constructor ()
      ensures Valid() && jobs == []
    {
      jobs := [];
    }

    method SetJob(j: J)
      requires Valid()
      modifies this
      ensures Valid() && jobs == Set(old(jobs), j)
    {
      SetMembers(jobs, j);
      if j in jobs {
        jobs := Without(jobs, j);
      } else {
        WithoutAbsent(jobs, j);
      }
      WithoutAbsent(jobs, j);
      jobs := [j] + jobs;
    }

    method UnsetJob(j: J)
      requires Valid()
      modifies this
      ensures Valid() && jobs == Without(old(jobs), j)
    {
      WithoutMembers(jobs, j);
      if j in jobs {
        jobs := Without(jobs, j);
      } else {
        WithoutAbsent(jobs, j);
      }
    }

    /** Removes the top job, which is then to be run. */
    method ExecuteJob() returns (j: J)
      requires Valid() && jobs != []
      modifies this
      ensures Valid() && old(jobs) == [j] + jobs && j !in jobs
    {
      j := jobs[0];
      jobs := jobs[1..];
    }

    method IsSet(j: J) returns (pending: bool)
      ensures pending <==> j in jobs
    {
      pending := j in jobs;
    }
  }
}
