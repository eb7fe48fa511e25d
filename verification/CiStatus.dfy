/** scripts/generate_ci_status.py: one newest matching job for every row of the dashboard, found by
    going through each workflow's runs once for all of its rows. */
module CiStatus {
  import opened Strings
  import opened Wrappers

  datatype Spec = Spec(suite: string, workflow: string, needles: seq<string>)

  /** A job as far as the search looks at it; a name that is no string counts as empty. */
  datatype Job = Job(name: string, data: string)

  /** A run; an id that is no integer makes the search skip it. */
  datatype Run = Run(id: Option<int>, data: string)

  datatype Hit = Hit(run: Run, job: Job)

  predicate Contains(text: string, needle: string) {
    Find(text, needle, 0) >= 0
  }

  predicate JobMatches(name: string, spec: Spec) {
    forall needle | needle in spec.needles :: Contains(name, needle)
  }

  ghost predicate IsWithin(before: string, needle: string, after: string, text: string) {
    text == before + needle + after
  }

  ghost predicate HasNeedles(name: string, spec: Spec) {
    forall needle | needle in spec.needles :: exists before, after :: IsWithin(before, needle, after, name)
  }

  /** A job is a row's if its name has every needle somewhere in it. */
  lemma MatchesByNeedles(name: string, spec: Spec)
    ensures JobMatches(name, spec) <==> HasNeedles(name, spec)
  {
    forall needle ensures Contains(name, needle) <==> exists before, after :: IsWithin(before, needle, after, name) {
      if Contains(name, needle) {
        var i := Find(name, needle, 0);
        assert name == name[..i] + name[i..i + |needle|] + name[i + |needle|..];
        assert IsWithin(name[..i], needle, name[i + |needle|..], name);
      }
      if before, after :| IsWithin(before, needle, after, name) {
        assert name[|before|..|before| + |needle|] == needle;
        assert OccursAt(name, needle, |before|);
      }
    }
  }

  // ---- What a row should show, one row at a time ----

  /** The first of these jobs that matches. */
  function FirstJob(jobs: seq<Job>, spec: Spec): Option<Job> {
    if jobs == [] then None
    else
      var earlier := FirstJob(jobs[..|jobs| - 1], spec);
      if earlier.Some? then earlier
      else if JobMatches(jobs[|jobs| - 1].name, spec) then Some(jobs[|jobs| - 1]) else None
  }

  function JobsOf(run: Run, jobsOf: int -> seq<Job>): seq<Job> {
    if run.id.Some? then jobsOf(run.id.value) else []
  }

  function HitIn(run: Run, jobs: seq<Job>, spec: Spec): Option<Hit> {
    match FirstJob(jobs, spec)
    case None => None
    case Some(job) => Some(Hit(run, job))
  }

  /** The first matching job of the first run that has one. */
  function FirstHit(runs: seq<Run>, jobsOf: int -> seq<Job>, spec: Spec): Option<Hit> {
    if runs == [] then None
    else
      var run := runs[|runs| - 1];
      var earlier := FirstHit(runs[..|runs| - 1], jobsOf, spec);
      if earlier.Some? then earlier else HitIn(run, JobsOf(run, jobsOf), spec)
  }

  ghost predicate IsFirstJob(jobs: seq<Job>, spec: Spec, j: nat) {
    && j < |jobs| && JobMatches(jobs[j].name, spec)
    && forall i | 0 <= i < j :: !JobMatches(jobs[i].name, spec)
  }

  lemma {:induction false} FirstJobIsFirst(jobs: seq<Job>, spec: Spec)
    ensures match FirstJob(jobs, spec)
            case None => forall i | 0 <= i < |jobs| :: !JobMatches(jobs[i].name, spec)
            case Some(job) => exists j: nat :: IsFirstJob(jobs, spec, j) && jobs[j] == job
  {
    if jobs != [] {
      var front, last := jobs[..|jobs| - 1], jobs[|jobs| - 1];
      FirstJobIsFirst(front, spec);
      if FirstJob(front, spec).Some? {
        var j: nat :| IsFirstJob(front, spec, j) && front[j] == FirstJob(front, spec).value;
        FirstOfFront(jobs, spec, j);
      } else if JobMatches(last.name, spec) {
        LastIsFirst(jobs, spec);
      } else {
        forall i | 0 <= i < |jobs| ensures !JobMatches(jobs[i].name, spec) {
          assert i < |front| ==> jobs[i] == front[i];
        }
      }
    }
  }

  lemma FirstOfFront(jobs: seq<Job>, spec: Spec, j: nat)
    requires jobs != [] && IsFirstJob(jobs[..|jobs| - 1], spec, j)
    ensures IsFirstJob(jobs, spec, j) && jobs[j] == jobs[..|jobs| - 1][j]
  {
    assert forall i | 0 <= i <= j :: jobs[i] == jobs[..|jobs| - 1][i];
  }

  lemma LastIsFirst(jobs: seq<Job>, spec: Spec)
    requires jobs != [] && JobMatches(jobs[|jobs| - 1].name, spec)
    requires var front := jobs[..|jobs| - 1]; forall i | 0 <= i < |front| :: !JobMatches(front[i].name, spec)
    ensures IsFirstJob(jobs, spec, |jobs| - 1)
  {
    var front := jobs[..|jobs| - 1];
    assert forall i | 0 <= i < |front| :: jobs[i] == front[i];
  }

  ghost predicate NoneIn(runs: seq<Run>, jobsOf: int -> seq<Job>, spec: Spec) {
    forall r | 0 <= r < |runs| :: FirstJob(JobsOf(runs[r], jobsOf), spec) == None
  }

  /** The hit is in the newest run that has any, and the first there; no hit means no job matches. */
  lemma {:induction false} FirstHitIsFirst(runs: seq<Run>, jobsOf: int -> seq<Job>, spec: Spec)
    ensures match FirstHit(runs, jobsOf, spec)
            case None => NoneIn(runs, jobsOf, spec)
            case Some(hit) =>
              exists r | 0 <= r < |runs| ::
                && runs[r] == hit.run && NoneIn(runs[..r], jobsOf, spec)
                && FirstJob(JobsOf(runs[r], jobsOf), spec) == Some(hit.job)
  {
    if runs != [] {
      var front := runs[..|runs| - 1];
      FirstHitIsFirst(front, jobsOf, spec);
      match FirstHit(front, jobsOf, spec)
      case Some(hit) =>
        var r :| 0 <= r < |front| && front[r] == hit.run && NoneIn(front[..r], jobsOf, spec)
                 && FirstJob(JobsOf(front[r], jobsOf), spec) == Some(hit.job);
        assert runs[r] == front[r] && runs[..r] == front[..r];
      case None =>
        assert runs[|front|] == runs[|runs| - 1] && runs[..|front|] == front;
    }
  }

  /** Job j of run r, which has an id, is one that the row may show. */
  ghost predicate IsCandidate(runs: seq<Run>, jobsOf: int -> seq<Job>, spec: Spec, r: int, j: int) {
    && 0 <= r < |runs| && runs[r].id.Some? && 0 <= j < |jobsOf(runs[r].id.value)|
    && HasNeedles(jobsOf(runs[r].id.value)[j].name, spec)
  }

  /** The row shows this candidate, and every other is behind it. */
  ghost predicate IsShown(runs: seq<Run>, jobsOf: int -> seq<Job>, spec: Spec, hit: Hit, r: int, j: int) {
    && IsCandidate(runs, jobsOf, spec, r, j)
    && hit == Hit(runs[r], jobsOf(runs[r].id.value)[j])
    && forall r', j' | IsCandidate(runs, jobsOf, spec, r', j') :: r < r' || (r == r' && j <= j')
  }

  /** A row shows the first candidate of the newest run that has one, and nothing exactly if none has. */
  lemma HitIsNewest(runs: seq<Run>, jobsOf: int -> seq<Job>, spec: Spec)
    ensures match FirstHit(runs, jobsOf, spec)
            case None => forall r, j :: !IsCandidate(runs, jobsOf, spec, r, j)
            case Some(hit) => exists r, j :: IsShown(runs, jobsOf, spec, hit, r, j)
  {
    FirstHitIsFirst(runs, jobsOf, spec);
    match FirstHit(runs, jobsOf, spec)
    case None =>
      NoCandidates(runs, jobsOf, spec, |runs|);
    case Some(hit) =>
      var r :| 0 <= r < |runs| && runs[r] == hit.run && NoneIn(runs[..r], jobsOf, spec)
               && FirstJob(JobsOf(runs[r], jobsOf), spec) == Some(hit.job);
      var jobs := JobsOf(runs[r], jobsOf);
      FirstJobIsFirst(jobs, spec);
      var j: nat :| IsFirstJob(jobs, spec, j) && jobs[j] == hit.job;
      MatchesByNeedles(jobs[j].name, spec);
      forall r', j' | IsCandidate(runs, jobsOf, spec, r', j') ensures r < r' || (r == r' && j <= j') {
        MatchesByNeedles(jobsOf(runs[r'].id.value)[j'].name, spec);
        NoCandidates(runs, jobsOf, spec, r);
      }
      assert IsShown(runs, jobsOf, spec, hit, r, j);
  }

  lemma NoCandidates(runs: seq<Run>, jobsOf: int -> seq<Job>, spec: Spec, n: nat)
    requires n <= |runs| && NoneIn(runs[..n], jobsOf, spec)
    ensures forall r, j | r < n :: !IsCandidate(runs, jobsOf, spec, r, j)
  {
    forall r, j | 0 <= r < n && IsCandidate(runs, jobsOf, spec, r, j) ensures false {
      var jobs := JobsOf(runs[..n][r], jobsOf);
      FirstJobIsFirst(jobs, spec);
      MatchesByNeedles(jobs[j].name, spec);
    }
  }

  lemma {:induction false} HitStays(runs: seq<Run>, jobsOf: int -> seq<Job>, spec: Spec, n: nat)
    requires n <= |runs| && FirstHit(runs[..n], jobsOf, spec).Some?
    ensures FirstHit(runs, jobsOf, spec) == FirstHit(runs[..n], jobsOf, spec)
  {
    if n < |runs| {
      var front := runs[..|runs| - 1];
      assert front[..n] == runs[..n];
      HitStays(front, jobsOf, spec, n);
    } else {
      assert runs[..n] == runs;
    }
  }

  /** What the rows of the dashboard should be. */
  function Rows(specs: seq<Spec>, runsOf: string -> seq<Run>, jobsOf: int -> seq<Job>): seq<Option<Hit>> {
    seq(|specs|, i requires 0 <= i < |specs| => FirstHit(runsOf(specs[i].workflow), jobsOf, specs[i]))
  }

  // ---- The search ----

  ghost predicate Agrees(found: map<nat, Hit>, i: nat, hit: Option<Hit>) {
    match hit
    case None => i !in found
    case Some(h) => i in found && found[i] == h
  }

  function OrElse(a: Option<Hit>, b: Option<Hit>): Option<Hit> {
    if a.Some? then a else b
  }

  /** The rows of this workflow that are open are those not found; other rows are left alone. */
  ghost predicate Open(indexes: set<nat>, pending: set<nat>, found: map<nat, Hit>, before: map<nat, Hit>) {
    && pending <= indexes
    && (forall i | i in indexes :: i in pending <==> i !in found)
    && (forall i: nat | i !in indexes :: Same(found, before, i))
  }

  ghost predicate Same(a: map<nat, Hit>, b: map<nat, Hit>, i: nat) {
    (i in a <==> i in b) && (i in a ==> a[i] == b[i])
  }

  ghost predicate AfterJob(spec: Spec, run: Run, job: Job, pending: set<nat>, found: map<nat, Hit>,
                           pending': set<nat>, found': map<nat, Hit>, i: nat) {
    if i in pending && JobMatches(job.name, spec)
    then i !in pending' && i in found' && found'[i] == Hit(run, job)
    else (i in pending <==> i in pending') && Same(found, found', i)
  }

  /** One job is offered to every row that is still open. */
  method OfferJob(specs: seq<Spec>, run: Run, job: Job, pending: set<nat>, found: map<nat, Hit>)
    returns (pending': set<nat>, found': map<nat, Hit>)
    requires forall i | i in pending :: i < |specs|
    ensures pending' <= pending
    ensures forall i: nat | i < |specs| :: AfterJob(specs[i], run, job, pending, found, pending', found', i)
    ensures forall i: nat | i >= |specs| :: Same(found, found', i)
  {
    pending', found' := pending, found;
    for index := 0 to |specs|
      invariant pending' <= pending
      invariant forall i: nat | i < index :: AfterJob(specs[i], run, job, pending, found, pending', found', i)
      invariant forall i: nat | i >= index :: (i in pending <==> i in pending') && Same(found, found', i)
    {
      ghost var open, were := pending', found';
      assert (index in pending <==> index in pending') && Same(found, found', index);
      if index in pending' && JobMatches(job.name, specs[index]) {
        found' := found'[index := Hit(run, job)];
        pending' := pending' - {index};
      }
      assert AfterJob(specs[index], run, job, pending, found, pending', found', index);
      forall i: nat | i < index ensures AfterJob(specs[i], run, job, pending, found, pending', found', i) {
        assert AfterJob(specs[i], run, job, pending, found, open, were, i);
      }
      forall i: nat | i > index ensures (i in pending <==> i in pending') && Same(found, found', i) {
        assert (i in pending <==> i in open) && Same(found, were, i);
      }
    }
  }

  lemma OneMoreJob(run: Run, jobs: seq<Job>, j: nat, spec: Spec)
    requires j < |jobs|
    ensures HitIn(run, jobs[..j + 1], spec) ==
            OrElse(HitIn(run, jobs[..j], spec),
                   if JobMatches(jobs[j].name, spec) then Some(Hit(run, jobs[j])) else None)
  {
    assert jobs[..j + 1][..j] == jobs[..j];
  }

  lemma OneMoreRun(runs: seq<Run>, r: nat, jobsOf: int -> seq<Job>, spec: Spec)
    requires r < |runs|
    ensures FirstHit(runs[..r + 1], jobsOf, spec) ==
            OrElse(FirstHit(runs[..r], jobsOf, spec), HitIn(runs[r], JobsOf(runs[r], jobsOf), spec))
  {
    assert runs[..r + 1][..r] == runs[..r];
  }

  /** Going on with the jobs of one run. */
  method SearchRun(specs: seq<Spec>, run: Run, jobs: seq<Job>, indexes: set<nat>, pending: set<nat>,
                   found: map<nat, Hit>, ghost before: map<nat, Hit>, ghost hits: seq<Option<Hit>>)
    returns (pending': set<nat>, found': map<nat, Hit>)
    requires forall i | i in indexes :: i < |specs|
    requires Open(indexes, pending, found, before) && |hits| == |specs|
    requires forall i | i in indexes :: Agrees(found, i, hits[i])
    ensures Open(indexes, pending', found', before)
    ensures forall i | i in indexes :: Agrees(found', i, OrElse(hits[i], HitIn(run, jobs, specs[i])))
  {
    pending', found' := pending, found;
    for j := 0 to |jobs|
      invariant Open(indexes, pending', found', before)
      invariant forall i | i in indexes :: Agrees(found', i, OrElse(hits[i], HitIn(run, jobs[..j], specs[i])))
    {
      ghost var open, were := pending', found';
      pending', found' := OfferJob(specs, run, jobs[j], pending', found');
      forall i | i in indexes ensures Agrees(found', i, OrElse(hits[i], HitIn(run, jobs[..j + 1], specs[i]))) {
        OneMoreJob(run, jobs, j, specs[i]);
        assert AfterJob(specs[i], run, jobs[j], open, were, pending', found', i);
      }
      OfferKeepsOpen(specs, run, jobs[j], indexes, open, were, pending', found', before);
    }
    assert jobs[..|jobs|] == jobs;
  }

  lemma OfferKeepsOpen(specs: seq<Spec>, run: Run, job: Job, indexes: set<nat>, pending: set<nat>, found: map<nat, Hit>,
                       pending': set<nat>, found': map<nat, Hit>, before: map<nat, Hit>)
    requires forall i | i in indexes :: i < |specs|
    requires Open(indexes, pending, found, before) && pending' <= pending
    requires forall i: nat | i < |specs| :: AfterJob(specs[i], run, job, pending, found, pending', found', i)
    requires forall i: nat | i >= |specs| :: Same(found, found', i)
    ensures Open(indexes, pending', found', before)
  {
    forall i: nat | i !in indexes ensures Same(found', before, i) {
      assert i !in pending && Same(found, before, i);
      assert i < |specs| ==> AfterJob(specs[i], run, job, pending, found, pending', found', i);
      assert i >= |specs| ==> Same(found, found', i);
    }
    forall i | i in indexes ensures i in pending' <==> i !in found' {
      assert AfterJob(specs[i], run, job, pending, found, pending', found', i);
    }
  }

  /** All rows of one workflow; the runs are gone through only until every row has its job. */
  method SearchWorkflow(specs: seq<Spec>, runs: seq<Run>, jobsOf: int -> seq<Job>, indexes: set<nat>,
                        found: map<nat, Hit>) returns (found': map<nat, Hit>)
    requires forall i | i in indexes :: i < |specs| && i !in found
    ensures forall i | i in indexes :: Agrees(found', i, FirstHit(runs, jobsOf, specs[i]))
    ensures forall i: nat | i !in indexes :: Same(found', found, i)
  {
    var pending := indexes;
    found' := found;
    for r := 0 to |runs|
      invariant Open(indexes, pending, found', found)
      invariant forall i | i in indexes :: Agrees(found', i, FirstHit(runs[..r], jobsOf, specs[i]))
    {
      if pending == {} {
        forall i | i in indexes ensures Agrees(found', i, FirstHit(runs, jobsOf, specs[i])) {
          HitStays(runs, jobsOf, specs[i], r);
        }
        return;
      }
      var run := runs[r];
      forall i | i in indexes ensures FirstHit(runs[..r + 1], jobsOf, specs[i]) ==
            OrElse(FirstHit(runs[..r], jobsOf, specs[i]), HitIn(run, JobsOf(run, jobsOf), specs[i])) {
        OneMoreRun(runs, r, jobsOf, specs[i]);
      }
      if run.id.None? {
        continue;
      }
      ghost var hits := seq(|specs|, i requires 0 <= i < |specs| => FirstHit(runs[..r], jobsOf, specs[i]));
      pending, found' := SearchRun(specs, run, jobsOf(run.id.value), indexes, pending, found', found, hits);
    }
    assert runs[..|runs|] == runs;
  }

  // ---- All workflows ----

  /** The workflows in the order of their first row. */
  function Workflows(specs: seq<Spec>): seq<string> {
    if specs == [] then []
    else
      var front, w := Workflows(specs[..|specs| - 1]), specs[|specs| - 1].workflow;
      if w in front then front else front + [w]
  }

  ghost predicate Distinct(ws: seq<string>) {
    forall a, b | 0 <= a < b < |ws| :: ws[a] != ws[b]
  }

  lemma OneMoreDistinct(ws: seq<string>, w: string)
    requires Distinct(ws) && w !in ws
    ensures Distinct(ws + [w])
  {
    var all := ws + [w];
    forall a, b | 0 <= a < b < |all| ensures all[a] != all[b] {
      assert all[a] in ws;
    }
  }

  lemma {:induction false} WorkflowsAreAll(specs: seq<Spec>)
    ensures forall i | 0 <= i < |specs| :: specs[i].workflow in Workflows(specs)
    ensures Distinct(Workflows(specs))
  {
    if specs != [] {
      WorkflowsAreAll(specs[..|specs| - 1]);
      if specs[|specs| - 1].workflow !in Workflows(specs[..|specs| - 1]) {
        OneMoreDistinct(Workflows(specs[..|specs| - 1]), specs[|specs| - 1].workflow);
      }
      assert forall i | 0 <= i < |specs| - 1 :: specs[i] == specs[..|specs| - 1][i];
    }
  }

  function RowsOf(specs: seq<Spec>, workflow: string): (indexes: set<nat>)
    ensures forall i: nat :: i in indexes <==> i < |specs| && specs[i].workflow == workflow
  {
    set i: nat | i < |specs| && specs[i].workflow == workflow
  }

  /** Every row gets what it would get if it were searched for alone. */
  method CollectStatus(specs: seq<Spec>, runsOf: string -> seq<Run>, jobsOf: int -> seq<Job>)
    returns (rows: seq<Option<Hit>>)
    ensures rows == Rows(specs, runsOf, jobsOf)
  {
    var found: map<nat, Hit> := map[];
    var workflows := Workflows(specs);
    WorkflowsAreAll(specs);
    for w := 0 to |workflows|
      invariant forall i: nat | i < |specs| :: Agrees(found, i,
                  if specs[i].workflow in workflows[..w]
                  then FirstHit(runsOf(specs[i].workflow), jobsOf, specs[i]) else None)
    {
      var workflow := workflows[w];
      assert workflows[..w + 1] == workflows[..w] + [workflow];
      forall a | 0 <= a < w ensures workflows[..w][a] != workflow {
        assert workflows[a] != workflows[w];
      }
      ghost var before := found;
      found := SearchWorkflow(specs, runsOf(workflow), jobsOf, RowsOf(specs, workflow), found);
      forall i: nat | i < |specs| ensures Agrees(found, i,
                  if specs[i].workflow in workflows[..w + 1]
                  then FirstHit(runsOf(specs[i].workflow), jobsOf, specs[i]) else None) {
        assert i !in RowsOf(specs, workflow) ==> Same(found, before, i);
      }
    }
    assert workflows[..|workflows|] == workflows;
    rows := seq(|specs|, i requires 0 <= i < |specs| => if i in found then Some(found[i]) else None);
    forall i: nat | i < |specs| ensures rows[i] == FirstHit(runsOf(specs[i].workflow), jobsOf, specs[i]) {
      assert specs[i].workflow in workflows;
    }
  }
}
