/** The donation form: the schema a submission must pass, the pending donation it records,
    and the read-then-increment of the project's `raised` total. The hosted backend it talks
    to is not part of the model: its answers are parameters, and the form keeps a log of the
    requests it issues. */
module DonationForm {
  import opened Values

  /** The form's fields as strings; `message` may be absent. */
  datatype FormValues = FormValues(
    name: string, email: string, amount: string, message: Option<string>, transferConfirmation: string)

  /** `z.string().min(2)`: at least two UTF-16 code units, as `.length` counts them. */
  predicate AtLeastTwo(s: string) {
    Utf16Length(s) >= 2
  }

  /** The length test passes exactly for two or more characters when none lies outside the
      Basic Multilingual Plane, and always passes for one character outside it, which
      JavaScript stores as two code units. */
  lemma AtLeastTwoMeaning(s: string)
    ensures (forall i :: 0 <= i < |s| ==> s[i] as int <= 0xFFFF) ==> (AtLeastTwo(s) <==> |s| >= 2)
    ensures |s| >= 2 ==> AtLeastTwo(s)
    ensures |s| == 1 ==> (AtLeastTwo(s) <==> s[0] as int > 0xFFFF)
  {
    if |s| == 1 {
      assert s[1..] == [];
    }
  }

  /** The `amount` refinement, given what `parseFloat` returned (None for NaN). */
  predicate AmountValid(parsed: Option<real>) {
    parsed.Some? && parsed.value > 0.0
  }

  /** `donationSchema`: the e-mail check is zod's and is given as `emailValid`. */
  predicate Accepted(v: FormValues, parsed: Option<real>, emailValid: bool) {
    && AtLeastTwo(v.name)
    && emailValid
    && AmountValid(parsed)
    && AtLeastTwo(v.transferConfirmation)
  }

  /** A string prop or field as a JavaScript value: `undefined` when absent. */
  function Optional(s: Option<string>): Value {
    if s.Some? then Str(s.value) else Undefined
  }

  /** `s || null` */
  function OrNull(s: Option<string>): (v: Value)
    ensures v == Null <==> s.None? || s.value == ""
    ensures v != Null ==> v == Str(s.value)
  {
    Or(Optional(s), Null)
  }

  /** The record handed to `insert`. */
  function PendingDonation(v: FormValues, amount: real, projectId: Option<string>, projectName: Option<string>): Record {
    [ ("name", Str(v.name)),
      ("email", Str(v.email)),
      ("amount", Num(amount)),
      ("message", OrNull(v.message)),
      ("project_id", OrNull(projectId)),
      ("project_name", OrNull(projectName)),
      ("transfer_confirmation", Str(v.transferConfirmation)),
      ("status", Str("pending")) ]
  }

  /** Every recorded donation is pending; it carries the form's name, e-mail, confirmation and
      parsed amount; an empty or absent message, project id or project name is null. */
  lemma PendingDonationMeaning(v: FormValues, amount: real, projectId: Option<string>, projectName: Option<string>)
    ensures var d := PendingDonation(v, amount, projectId, projectName);
      && Get(d, "status") == Str("pending")
      && Get(d, "name") == Str(v.name) && Get(d, "email") == Str(v.email)
      && Get(d, "amount") == Num(amount)
      && Get(d, "transfer_confirmation") == Str(v.transferConfirmation)
      && (Get(d, "message") == Null <==> v.message.None? || v.message.value == "")
      && (Get(d, "project_id") == Null <==> projectId.None? || projectId.value == "")
      && (Get(d, "project_name") == Null <==> projectName.None? || projectName.value == "")
  {
    var d := PendingDonation(v, amount, projectId, projectName);
    GetFirstAt(d, "status", 7);
    GetFirstAt(d, "name", 0);
    GetFirstAt(d, "email", 1);
    GetFirstAt(d, "amount", 2);
    GetFirstAt(d, "message", 3);
    GetFirstAt(d, "project_id", 4);
    GetFirstAt(d, "project_name", 5);
    GetFirstAt(d, "transfer_confirmation", 6);
  }

  /** `(projectData.raised || 0) + amount`; `raised` is null when the column holds NULL. */
  function NewRaised(raised: Option<real>, amount: real): (total: real)
    ensures raised.None? ==> total == amount
    ensures raised.Some? ==> total == raised.value + amount
  {
    Or(if raised.Some? then Num(raised.value) else Null, Num(0.0)).n + amount
  }

  /** What reading the project gave: nothing (an error or no row), or its `raised` column. */
  datatype ProjectRead = NotRead | Read(raised: Option<real>)

  /** The requests handleDonation issues to the backend. */
  datatype Request =
    | InsertDonation(record: Record)
    | ReadRaised(projectId: string)
    | UpdateRaised(projectId: string, raised: real)

  /** A request with the `isProcessing` flag at the moment it went out, or a call of `onSuccess`. */
  datatype Event = Issued(request: Request, processing: bool) | SuccessCallback

  /** The component: its props, its two state flags, and what it has sent. */
  class Form {
    const projectId: Option<string>
    const projectName: Option<string>
    const hasOnSuccess: bool
    var isSuccess: bool
    var isProcessing: bool
    var log: seq<Event>

    constructor (projectId: Option<string>, projectName: Option<string>, hasOnSuccess: bool)
      ensures this.projectId == projectId && this.projectName == projectName && this.hasOnSuccess == hasOnSuccess
      ensures !isSuccess && !isProcessing && log == []
    {
      this.projectId := projectId;
      this.projectName := projectName;
      this.hasOnSuccess := hasOnSuccess;
      isSuccess := false;
      isProcessing := false;
      log := [];
    }

    /** `handleDonation(values)`: `insertOk` is whether the insert reported no error, `read` what
        the project read gave. Only reachable from the form, which shows while `isSuccess` is
        false and whose button is disabled while processing. */
    method HandleDonation(values: FormValues, amount: real, insertOk: bool, read: ProjectRead)
      requires !isSuccess && !isProcessing
      modifies this
      ensures !isProcessing
      ensures isSuccess == insertOk
      ensures old(log) < log
      ensures var sent := log[|old(log)|..];
        var id := projectId;
        && sent[0] == Issued(InsertDonation(PendingDonation(values, amount, projectId, projectName)), true)
        && sent == (
          [sent[0]]
          + (if insertOk && Truthy(Optional(id)) then [Issued(ReadRaised(id.value), true)] else [])
          + (if insertOk && Truthy(Optional(id)) && read.Read? then [Issued(UpdateRaised(id.value, NewRaised(read.raised, amount)), true)] else [])
          + (if insertOk && hasOnSuccess then [SuccessCallback] else []))
    {
      isProcessing := true;
      var record := PendingDonation(values, amount, projectId, projectName);
      log := log + [Issued(InsertDonation(record), isProcessing)];
      if insertOk {
        if Truthy(Optional(projectId)) {
          log := log + [Issued(ReadRaised(projectId.value), isProcessing)];
          if read.Read? {
            var total := NewRaised(read.raised, amount);
            log := log + [Issued(UpdateRaised(projectId.value, total), isProcessing)];
          }
        }
        isSuccess := true;
        if hasOnSuccess {
          log := log + [SuccessCallback];
        }
      }
      isProcessing := false;
    }

    /** `form.handleSubmit(handleDonation)`: a submission that fails the schema sends nothing
        and changes no state. */
    method Submit(values: FormValues, parsed: Option<real>, emailValid: bool, insertOk: bool, read: ProjectRead)
      requires !isSuccess && !isProcessing
      modifies this
      ensures !isProcessing
      ensures !Accepted(values, parsed, emailValid) ==> !isSuccess && log == old(log)
      ensures Accepted(values, parsed, emailValid) ==>
        && isSuccess == insertOk
        && |log| > |old(log)|
        && log[|old(log)|] == Issued(InsertDonation(PendingDonation(values, parsed.value, projectId, projectName)), true)
    {
      if Accepted(values, parsed, emailValid) {
        HandleDonation(values, parsed.value, insertOk, read);
      }
    }

    /** "Make another donation": back to the form. */
    method Reset()
      modifies this
      ensures !isSuccess && isProcessing == old(isProcessing) && log == old(log)
    {
      isSuccess := false;
    }
  }

  /** Reading the log: the project's total is written only after a successful insert, only with
      a project id, and only when the read returned the project; then it is the old total (or 0)
      plus the amount. */
  lemma RaisedWrittenOnlyWhen(sent: seq<Event>, values: FormValues, amount: real, projectId: Option<string>,
                              projectName: Option<string>, hasOnSuccess: bool, insertOk: bool, read: ProjectRead, pid: string, total: real)
    requires sent == (
          [Issued(InsertDonation(PendingDonation(values, amount, projectId, projectName)), true)]
          + (if insertOk && Truthy(Optional(projectId)) then [Issued(ReadRaised(projectId.value), true)] else [])
          + (if insertOk && Truthy(Optional(projectId)) && read.Read? then [Issued(UpdateRaised(projectId.value, NewRaised(read.raised, amount)), true)] else [])
          + (if insertOk && hasOnSuccess then [SuccessCallback] else []))
    ensures Issued(UpdateRaised(pid, total), true) in sent <==>
      && insertOk && projectId == Some(pid) && pid != "" && read.Read?
      && total == (if read.raised.Some? then read.raised.value else 0.0) + amount
    ensures forall e :: e in sent && e.Issued? ==> e.processing
  {
  }
}
