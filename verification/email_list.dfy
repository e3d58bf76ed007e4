/** `REDCapEmailList.__pull_email_list_from_redcap`: the report's records,
    keyed by the value of their email column, with a repeated email an
    error. The report records are a parameter in place of the REDCap call. */
module EmailList {
  import opened Results

  /** One report record, column name to value. */
  type Record = map<string, string>

  /** `REDCapEmailListError("Duplicate email: ...")`, or the `KeyError` of a
      record lacking the email column (the record's position is kept). */
  datatype EmailListError = DuplicateEmail(email: string) | MissingEmailColumn(index: nat)

  /** The first `n` records all carry the email column and no email among
      them repeats. */
  predicate CleanPrefix(records: seq<Record>, emailKey: string, n: nat)
    requires n <= |records|
  {
    && (forall i :: 0 <= i < n ==> emailKey in records[i])
    && (forall i, j :: 0 <= i < j < n ==> records[i][emailKey] != records[j][emailKey])
  }

  /** Record `n` is the first that breaks the rules, and `error` says how:
      it lacks the email column, or its email is one an earlier record has. */
  predicate FirstFault(records: seq<Record>, emailKey: string, n: nat, error: EmailListError)
    requires n < |records|
  {
    && CleanPrefix(records, emailKey, n)
    && match error
       case MissingEmailColumn(index) => index == n && emailKey !in records[n]
       case DuplicateEmail(email) =>
         && emailKey in records[n] && records[n][emailKey] == email
         && exists i :: 0 <= i < n && records[i][emailKey] == email
  }

  /** The emails of the first `n` records. */
  function EmailsOf(records: seq<Record>, emailKey: string, n: nat): set<string>
    requires n <= |records| && forall i :: 0 <= i < n ==> emailKey in records[i]
  {
    set i | 0 <= i < n :: records[i][emailKey]
  }

  /** `emails` is the map the loop has built after `n` clean records: one
      entry per record, keyed by the record's email, holding the record. */
  predicate Built(records: seq<Record>, emailKey: string, n: nat, emails: map<string, Record>)
    requires n <= |records| && CleanPrefix(records, emailKey, n)
  {
    && |emails| == n
    && emails.Keys == EmailsOf(records, emailKey, n)
    && forall i :: 0 <= i < n ==> emails[records[i][emailKey]] == records[i]
  }

  /** Some record among the first `n` is the first fault, for `error`. */
  predicate FaultAmong(records: seq<Record>, emailKey: string, n: nat, error: EmailListError)
    requires n <= |records|
  {
    exists m :: 0 <= m < n && FirstFault(records, emailKey, m, error)
  }

  /** The loop of `__pull_email_list_from_redcap` after its first `n`
      records: the email → record map built in list order, or the error of
      the first record that lacks the column or repeats an earlier email. */
  function PullFirst(records: seq<Record>, emailKey: string, n: nat): (r: Result<map<string, Record>, EmailListError>)
    requires n <= |records|
    ensures r.Success? <==> CleanPrefix(records, emailKey, n)
    ensures r.Success? ==> Built(records, emailKey, n, r.value)
    ensures r.Failure? ==> FaultAmong(records, emailKey, n, r.error)
    decreases n
  {
    if n == 0 then Success(map[])
    else
      var last := records[n - 1];
      match PullFirst(records, emailKey, n - 1)
      case Failure(e) =>
        FaultAmongGrows(records, emailKey, n - 1, e);
        Failure(e)
      case Success(emails) =>
        if emailKey !in last then
          MissingColumn(records, emailKey, n - 1);
          Failure(MissingEmailColumn(n - 1))
        else if last[emailKey] in emails then
          RepeatedEmail(records, emailKey, n - 1);
          Failure(DuplicateEmail(last[emailKey]))
        else
          FreshEmail(records, emailKey, n - 1, emails);
          Success(emails[last[emailKey] := last])
  }

  /** `__pull_email_list_from_redcap` over the report's records. */
  function PullEmailList(records: seq<Record>, emailKey: string): (r: Result<map<string, Record>, EmailListError>)
    ensures r.Success? <==> CleanPrefix(records, emailKey, |records|)
    ensures r.Success? ==> |r.value| == |records|
    ensures r.Success? ==> r.value.Keys == EmailsOf(records, emailKey, |records|)
    ensures r.Success? ==> forall i :: 0 <= i < |records| ==> r.value[records[i][emailKey]] == records[i]
    ensures r.Failure? ==> exists n :: 0 <= n < |records| && FirstFault(records, emailKey, n, r.error)
  {
    PullFirst(records, emailKey, |records|)
  }

  /** A first fault among the first `n` records is one among `n + 1`; and
      the records up to it are then not clean. */
  lemma {:induction false} FaultAmongGrows(records: seq<Record>, emailKey: string, n: nat, error: EmailListError)
    requires n < |records| && FaultAmong(records, emailKey, n, error)
    ensures FaultAmong(records, emailKey, n + 1, error)
    ensures !CleanPrefix(records, emailKey, n + 1)
  {
    var m :| 0 <= m < n && FirstFault(records, emailKey, m, error);
    match error
    case MissingEmailColumn(_) =>
    case DuplicateEmail(email) =>
      var i :| 0 <= i < m && records[i][emailKey] == email;
      assert records[i][emailKey] == records[m][emailKey];
  }

  /** A record without the email column after a clean prefix is the first
      fault. */
  lemma {:induction false} MissingColumn(records: seq<Record>, emailKey: string, n: nat)
    requires n < |records| && CleanPrefix(records, emailKey, n)
    requires emailKey !in records[n]
    ensures FaultAmong(records, emailKey, n + 1, MissingEmailColumn(n))
    ensures !CleanPrefix(records, emailKey, n + 1)
  {
    assert FirstFault(records, emailKey, n, MissingEmailColumn(n));
  }

  /** The last record repeating an email of a clean prefix is the first fault. */
  lemma {:induction false} RepeatedEmail(records: seq<Record>, emailKey: string, n: nat)
    requires n < |records| && CleanPrefix(records, emailKey, n)
    requires emailKey in records[n] && records[n][emailKey] in EmailsOf(records, emailKey, n)
    ensures FaultAmong(records, emailKey, n + 1, DuplicateEmail(records[n][emailKey]))
    ensures !CleanPrefix(records, emailKey, n + 1)
  {
    var i :| 0 <= i < n && records[i][emailKey] == records[n][emailKey];
    assert FirstFault(records, emailKey, n, DuplicateEmail(records[n][emailKey]));
  }

  /** A record whose email is new extends a clean prefix by one. */
  lemma {:induction false} CleanExtend(records: seq<Record>, emailKey: string, n: nat)
    requires n < |records| && CleanPrefix(records, emailKey, n)
    requires emailKey in records[n] && records[n][emailKey] !in EmailsOf(records, emailKey, n)
    ensures CleanPrefix(records, emailKey, n + 1)
    ensures EmailsOf(records, emailKey, n + 1) == EmailsOf(records, emailKey, n) + {records[n][emailKey]}
  {
    forall i, j | 0 <= i < j < n + 1
      ensures records[i][emailKey] != records[j][emailKey]
    {
      if j == n {
        assert records[i][emailKey] in EmailsOf(records, emailKey, n);
      }
    }
  }

  /** A record with a new email extends the clean prefix and the map built
      so far by one entry. */
  lemma {:induction false} FreshEmail(records: seq<Record>, emailKey: string, n: nat, emails: map<string, Record>)
    requires n < |records| && CleanPrefix(records, emailKey, n)
    requires Built(records, emailKey, n, emails)
    requires emailKey in records[n] && records[n][emailKey] !in emails
    ensures CleanPrefix(records, emailKey, n + 1)
    ensures Built(records, emailKey, n + 1, emails[records[n][emailKey] := records[n]])
  {
    CleanExtend(records, emailKey, n);
    FreshEmailKeys(emails, records[n][emailKey], records[n],
                   EmailsOf(records, emailKey, n), EmailsOf(records, emailKey, n + 1), n);
    FreshEmailLookups(records, emailKey, emails, n);
  }

  /** Adding an entry under a key not yet present grows the keys by that
      key and the size by one. */
  lemma {:induction false} FreshEmailKeys(emails: map<string, Record>, email: string, record: Record,
                                          before: set<string>, after: set<string>, n: nat)
    requires emails.Keys == before && |emails| == n && email !in emails
    requires after == before + {email}
    ensures emails[email := record].Keys == after
    ensures |emails[email := record]| == n + 1
  {
  }

  /** Adding record `n` under a new email keeps every earlier record under
      its own email. */
  lemma {:induction false} FreshEmailLookups(records: seq<Record>, emailKey: string, emails: map<string, Record>, n: nat)
    requires n < |records|
    requires forall i :: 0 <= i <= n ==> emailKey in records[i]
    requires forall i :: 0 <= i < n ==>
      records[i][emailKey] in emails && emails[records[i][emailKey]] == records[i]
    requires records[n][emailKey] !in emails
    ensures forall i :: 0 <= i <= n ==>
      emails[records[n][emailKey] := records[n]][records[i][emailKey]] == records[i]
  {
  }
}
