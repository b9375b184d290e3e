/**
  The probe that inserts, updates and deletes one row as the runtime role, then tries statements that
  must be refused, each inside a savepoint.

  What the server allows is a parameter. A statement may be refused with an error, may silently touch
  no row because a row policy hides it, or may work.
 */
module RuntimeProbe {
  import opened Options

  const INSUFFICIENT_PRIVILEGE := "42501"

  datatype Access = Refused | Hidden | Works

  /** How the server answers a statement that should be denied. `Ran` carries the state the statement
      would leave behind. */
  datatype Reply = Ran(effect: Data) | DbError(sqlstate: Option<string>) | OtherError

  /** The settings table and everything else a statement could change. */
  datatype Data = Data(settings: map<string, Option<string>>, rest: string)

  datatype Verdict = Verdict(denied: bool) | Raised

  /** The rights the role has on the settings table. */
  datatype Rights = Rights(insert: Access, select: Access, update: Access, delete: Access)

  datatype Exit = ConnectionError | Finished(passed: bool)

  function DenialOf(reply: Reply): Verdict {
    match reply
    case Ran(_) => Verdict(false)
    case DbError(sqlstate) => Verdict(sqlstate == Some(INSUFFICIENT_PRIVILEGE))
    case OtherError => Raised
  }

  /** The row left behind when the delete touched nothing. */
  function Leftover(rights: Rights): Option<string> {
    if rights.update.Works? then Some("v") else None
  }

  /** Every statement goes through, except that the delete silently touches no row. */
  predicate DeleteSkipped(data: Data, key: string, rights: Rights, queriesRun: bool, denials: seq<Reply>) {
    && queriesRun && key !in data.settings
    && rights.insert.Works? && rights.select.Works? && !rights.update.Refused? && rights.delete.Hidden?
    && forall i :: 0 <= i < |denials| ==> !denials[i].OtherError?
  }

  class Connection {
    var data: Data

    /** True only for SQLSTATE 42501; the savepoint is rolled back on every path. */
    method Denied(reply: Reply) returns (verdict: Verdict)
      modifies this
      ensures data == old(data)
      ensures verdict == DenialOf(reply)
      ensures verdict.Raised? <==> reply.OtherError?
      ensures verdict.Verdict? ==> (verdict.denied <==> reply == DbError(Some("42501")))
    {
      var savepoint := data;
      match reply {
        case Ran(effect) =>
          data := effect;
          verdict := Verdict(false);
        case DbError(sqlstate) =>
          verdict := Verdict(sqlstate == Some(INSUFFICIENT_PRIVILEGE));
        case OtherError =>
          verdict := Raised;
      }
      data := savepoint;
    }

    method AllDenied(denials: seq<Reply>) returns (verdict: Verdict)
      modifies this
      ensures data == old(data)
      ensures verdict.Raised? <==> exists i :: 0 <= i < |denials| && denials[i].OtherError?
      ensures verdict.Verdict? ==>
        (verdict.denied <==> forall i :: 0 <= i < |denials| ==> denials[i] == DbError(Some("42501")))
    {
      verdict := Verdict(true);
      var i := 0;
      while i < |denials|
        invariant 0 <= i <= |denials|
        invariant data == old(data) && verdict.Verdict?
        invariant forall j :: 0 <= j < i ==> !denials[j].OtherError?
        invariant verdict.denied <==> forall j :: 0 <= j < i ==> denials[j] == DbError(Some(INSUFFICIENT_PRIVILEGE))
      {
        var one := Denied(denials[i]);
        if one.Raised? {
          return Raised;
        }
        verdict := Verdict(verdict.denied && one.denied);
        i := i + 1;
      }
    }

    /** The insert, update and delete of the acceptance row; None when a statement raised. */
    method Crud(key: string, rights: Rights) returns (passed: Option<bool>)
      modifies this
      ensures passed.Some? <==>
        rights.insert.Works? && key !in old(data).settings && rights.select.Works? && !rights.update.Refused? && !rights.delete.Refused?
      ensures passed.Some? ==>
        data == (if rights.delete.Works? then old(data) else old(data).(settings := old(data).settings[key := Leftover(rights)]))
      ensures passed.Some? ==> (passed.value <==> rights.update.Works? && rights.delete.Works?)
    {
      if !rights.insert.Works? || key in data.settings {
        return None;
      }
      data := data.(settings := data.settings[key := None]);
      if !rights.select.Works? {
        // refused, or `scalar_one` finds no row
        return None;
      }
      var inserted := data.settings[key];
      if rights.update.Refused? {
        return None;
      }
      if rights.update.Works? {
        data := data.(settings := data.settings[key := Some("v")]);
      }
      var updated := data.settings[key];
      if rights.delete.Refused? {
        return None;
      }
      if rights.delete.Works? {
        data := data.(settings := data.settings - {key});
      }
      var remaining := key in data.settings;
      passed := Some(inserted == None && updated == Some("v") && !remaining);
      assert rights.delete.Works? ==> data.settings == old(data).settings;
    }

    /**
      The whole run. `queries` holds the conjunction of the read-only checks before and after the row,
      None when one of them raised, which rolls back wherever it happens. Leaving the block normally
      commits, an exception rolls back. The data is as it was before except when everything went
      through and the delete touched nothing; the run never reports success in that case.
     */
    method Verify(key: string, rights: Rights, queries: Option<bool>, denials: seq<Reply>) returns (exit: Exit)
      modifies this
      ensures data == old(data) <==> !DeleteSkipped(old(data), key, rights, queries.Some?, denials)
      ensures data == old(data) || data == old(data).(settings := old(data).settings[key := Leftover(rights)])
      ensures exit == Finished(true) ==> data == old(data)
      ensures exit == ConnectionError <==>
        || queries.None? || key in old(data).settings || !rights.insert.Works? || !rights.select.Works?
        || rights.update.Refused? || rights.delete.Refused? || exists i :: 0 <= i < |denials| && denials[i].OtherError?
      ensures exit == Finished(true) <==>
        && queries == Some(true) && key !in old(data).settings && rights == Rights(Works, Works, Works, Works)
        && forall i :: 0 <= i < |denials| ==> denials[i] == DbError(Some("42501"))
    {
      var begin := data;
      if queries.None? {
        return ConnectionError;
      }
      var crud := Crud(key, rights);
      if crud.None? {
        data := begin;
        return ConnectionError;
      }
      var verdict := AllDenied(denials);
      if verdict.Raised? {
        data := begin;
        return ConnectionError;
      }
      assert key in data.settings ==> data != old(data);
      exit := Finished(queries.value && crud.value && verdict.denied);
    }
  }

  /** Every right works but the delete touches no row: the row is left behind, and the run reports it. */
  method SkippedDeleteLeavesARow() returns (exit: Exit, left: Data)
    ensures exit == Finished(false) && left == Data(map["k" := Some("v")], "")
  {
    var connection := new Connection;
    connection.data := Data(map[], "");
    var rights := Rights(Works, Works, Works, Hidden);
    exit := connection.Verify("k", rights, Some(true), []);
    left := connection.data;
  }
}
