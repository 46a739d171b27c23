/**
 * The processing-job record (`ProcessingJob`) and the job table it lives in,
 * with ids assigned by auto-increment.
 */
module Jobs {
  import opened Wrappers
  import opened JsValue

  /** The `status` column: exactly these four values. */
  datatype JobStatus = Pending | Processing | Completed | Failed

  /** The column default, used when a record is created without a status. */
  const DefaultStatus := Pending

  /** A value of the `parameters` JSON blob: a request-body value or a list of them. */
  datatype Value = Scalar(p: Param) | List(items: seq<Param>)

  /** One row of `processing_jobs`. `userId`, `originalFile` and `jobType` are
      required columns; `outputFile`, `errorMessage` and `completedAt` are
      nullable; `parameters` is the JSON blob of the request's options. */
  datatype Job = Job(
    id: nat,
    userId: nat,
    originalFile: string,
    outputFile: Option<string>,
    jobType: string,
    status: JobStatus,
    parameters: seq<(string, Value)>,
    errorMessage: Option<string>,
    completedAt: Option<int>,
    createdAt: int,
    updatedAt: int)

  /** The attributes a caller passes to `ProcessingJob.create`. */
  datatype NewJob = NewJob(
    userId: nat,
    originalFile: string,
    jobType: string,
    status: Option<JobStatus>,
    parameters: seq<(string, Value)>)

  /** The table in insertion order: the auto-increment id of row `i` is `i + 1`,
      and rows are never removed. */
  datatype JobTable = JobTable(rows: seq<Job>) {
    function NextId(): nat { |rows| + 1 }
  }

  const EmptyTable := JobTable([])

  /** A row's fields agree with its status: only a completed job has an output
      file and a completion time, only a failed job has an error message. */
  predicate Consistent(j: Job) {
    && (j.status == Completed <==> j.completedAt.Some?)
    && (j.status == Completed <==> j.outputFile.Some?)
    && (j.status == Failed <==> j.errorMessage.Some?)
    && j.createdAt <= j.updatedAt
  }

  /** Every row carries its own id and is consistent. */
  predicate Valid(t: JobTable) {
    forall i :: 0 <= i < |t.rows| ==> t.rows[i].id == i + 1 && Consistent(t.rows[i])
  }

  predicate Has(t: JobTable, id: nat) {
    1 <= id <= |t.rows|
  }

  function Get(t: JobTable, id: nat): Job
    requires Has(t, id)
  {
    t.rows[id - 1]
  }

  /** `ProcessingJob.create(attrs)` at time `now`: the new row takes the next id,
      the given status or the default, null optional columns and both timestamps;
      every earlier row is untouched. */
  function Create(t: JobTable, attrs: NewJob, now: int): (r: (JobTable, Job))
    ensures r.1.id == t.NextId() && r.0.rows == t.rows + [r.1]
    ensures r.1.userId == attrs.userId && r.1.originalFile == attrs.originalFile
    ensures r.1.jobType == attrs.jobType && r.1.parameters == attrs.parameters
    ensures r.1.status == (if attrs.status.Some? then attrs.status.value else Pending)
    ensures r.1.outputFile.None? && r.1.errorMessage.None? && r.1.completedAt.None?
    ensures r.1.createdAt == now && r.1.updatedAt == now
    ensures Valid(t) && r.1.status != Completed && r.1.status != Failed ==> Valid(r.0)
  {
    var job := Job(t.NextId(), attrs.userId, attrs.originalFile, None, attrs.jobType,
                   attrs.status.GetOr(DefaultStatus), attrs.parameters, None, None, now, now);
    (JobTable(t.rows + [job]), job)
  }

  /** `job.save()`: the row with the job's id is replaced, the others stay. */
  function Save(t: JobTable, j: Job): (r: JobTable)
    requires Has(t, j.id)
    ensures |r.rows| == |t.rows| && Get(r, j.id) == j
    ensures forall id :: Has(t, id) && id != j.id ==> Get(r, id) == Get(t, id)
    ensures Valid(t) && Consistent(j) ==> Valid(r)
  {
    JobTable(t.rows[j.id - 1 := j])
  }

  /** A status change the handlers perform: out of `processing`, once. */
  predicate Transition(from: JobStatus, to: JobStatus) {
    from == Processing && (to == Completed || to == Failed)
  }

  predicate Terminal(s: JobStatus) {
    s == Completed || s == Failed
  }

  /** Terminal states have no way out, and `pending` is never entered. */
  lemma TransitionShape(from: JobStatus, to: JobStatus)
    ensures Transition(from, to) ==> !Terminal(from) && Terminal(to)
    ensures !Transition(from, Pending) && !Transition(from, Processing)
    ensures Terminal(from) ==> !Transition(from, to)
  {
  }

  /** The tool succeeded: record the output path and completion time, then save. */
  function Complete(j: Job, outputPath: string, now: int): (r: Job)
    requires j.status == Processing && Consistent(j) && now >= j.updatedAt
    ensures Transition(j.status, r.status) && r.status == Completed
    ensures r.outputFile == Some(outputPath) && r.completedAt == Some(now) && r.updatedAt == now
    ensures r.id == j.id && r.userId == j.userId && r.originalFile == j.originalFile
    ensures r.jobType == j.jobType && r.errorMessage == j.errorMessage && r.createdAt == j.createdAt
    ensures Consistent(r)
  {
    j.(outputFile := Some(outputPath), status := Completed, completedAt := Some(now), updatedAt := now)
  }

  /** The tool failed: record the error's message, then save. */
  function Fail(j: Job, message: string, now: int): (r: Job)
    requires j.status == Processing && Consistent(j) && now >= j.updatedAt
    ensures Transition(j.status, r.status) && r.status == Failed
    ensures r.errorMessage == Some(message) && r.updatedAt == now
    ensures r.outputFile.None? && r.completedAt.None?
    ensures r.id == j.id && r.userId == j.userId && r.originalFile == j.originalFile
    ensures r.jobType == j.jobType && r.createdAt == j.createdAt
    ensures Consistent(r)
  {
    j.(status := Failed, errorMessage := Some(message), updatedAt := now)
  }

  /** `findOne({ where: { id, user_id } })`: a row is visible only to its owner. */
  function FindOwned(t: JobTable, id: nat, userId: nat): (r: Option<Job>)
    ensures r.Some? <==> Has(t, id) && Get(t, id).userId == userId
    ensures r.Some? ==> r.value == Get(t, id)
  {
    if Has(t, id) && Get(t, id).userId == userId then Some(Get(t, id)) else None
  }

  /** In a valid table the lookup is the query `where: { id, user_id }`: a job
      is found exactly when some row carries both the id and the owner, and
      the job found is such a row. */
  lemma FindOwnedMatchesWhere(t: JobTable, id: nat, userId: nat)
    requires Valid(t)
    ensures FindOwned(t, id, userId).Some? <==>
              exists k :: 0 <= k < |t.rows| && t.rows[k].id == id && t.rows[k].userId == userId
    ensures FindOwned(t, id, userId).Some? ==>
              var j := FindOwned(t, id, userId).value; j in t.rows && j.id == id && j.userId == userId
  {
    if FindOwned(t, id, userId).Some? {
      assert t.rows[id - 1].id == id;
    }
  }
}
