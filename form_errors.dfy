/**
 * What the two form components share: the `newErrors` object their validators
 * fill field by field, and what they do with a failed request: the optional
 * `err.response?.data` fields they inspect and the `fieldErrors.forEach` loop
 * that turns the list of `{field, message}` entries into an errors object
 * keyed by field, a later entry for a field overwriting an earlier one.
 */
module FormErrors {
  import opened Wrappers

  /** One `{field, message}` entry of a `fieldErrors` list. */
  datatype FieldMessage = FieldMessage(field: string, message: string)

  /** The parts of `err.response.data` the components read; `None` is undefined. */
  datatype ErrorData = ErrorData(fieldErrors: Option<seq<FieldMessage>>, message: Option<string>, error: Option<string>)

  /**
   * A rejected axios request: `err.response?.status` and `err.response?.data`,
   * with every field `None` when there was no response at all.
   */
  datatype Failure = Failure(status: Option<int>, data: ErrorData)

  /** `newErrors[key] = msg` when a validator reports `msg`, nothing otherwise. */
  function Put(errors: map<string, string>, key: string, e: Option<string>): (r: map<string, string>)
    ensures forall k :: k in r <==> k in errors || (k == key && e.Some?)
    ensures e.Some? ==> r[key] == e.value
    ensures forall k :: k in errors && k != key ==> r[k] == errors[k]
  {
    if e.Some? then errors[key := e.value] else errors
  }

  /**
   * Three validators reporting under three different keys: each key is
   * present exactly when its validator reported, with that report, and no
   * other key is.
   */
  lemma PutThree(k1: string, e1: Option<string>, k2: string, e2: Option<string>, k3: string, e3: Option<string>)
    requires k1 != k2 && k1 != k3 && k2 != k3
    ensures var r := Put(Put(Put(map[], k1, e1), k2, e2), k3, e3);
      && (forall k :: k in r ==> k == k1 || k == k2 || k == k3)
      && (k1 in r <==> e1.Some?) && (k1 in r ==> r[k1] == e1.value)
      && (k2 in r <==> e2.Some?) && (k2 in r ==> r[k2] == e2.value)
      && (k3 in r <==> e3.Some?) && (k3 in r ==> r[k3] == e3.value)
  {
  }

  /** The errors object the entries produce when assigned one after another. */
  function LastWins(entries: seq<FieldMessage>): (errors: map<string, string>)
    ensures |errors| <= |entries|
    decreases |entries|
  {
    if entries == [] then map[]
    else
      var last := entries[|entries| - 1];
      LastWins(entries[..|entries| - 1])[last.field := last.message]
  }

  /** A field has an error exactly when some entry names it. */
  lemma {:induction false} LastWinsKeys(entries: seq<FieldMessage>)
    ensures forall f :: f in LastWins(entries) <==> exists i :: 0 <= i < |entries| && entries[i].field == f
    decreases |entries|
  {
    if entries != [] {
      var init := entries[..|entries| - 1];
      LastWinsKeys(init);
      forall f | f in LastWins(entries) ensures exists i :: 0 <= i < |entries| && entries[i].field == f {
        if f != entries[|entries| - 1].field {
          assert f in LastWins(init);
          var i :| 0 <= i < |init| && init[i].field == f;
          assert entries[i] == init[i];
        }
      }
      forall f | exists i :: 0 <= i < |entries| && entries[i].field == f ensures f in LastWins(entries) {
        var i :| 0 <= i < |entries| && entries[i].field == f;
        if i < |init| {
          assert init[i] == entries[i];
        }
      }
    }
  }

  /** The message kept for a field is that of the last entry naming it. */
  lemma {:induction false} LastWinsValue(entries: seq<FieldMessage>, i: nat)
    requires i < |entries|
    requires forall j :: i < j < |entries| ==> entries[j].field != entries[i].field
    ensures entries[i].field in LastWins(entries)
    ensures LastWins(entries)[entries[i].field] == entries[i].message
    decreases |entries|
  {
    if i < |entries| - 1 {
      var init := entries[..|entries| - 1];
      assert init[i] == entries[i];
      LastWinsValue(init, i);
    }
  }

  /** `const backendErrors = {}; fieldErrors.forEach(e => { backendErrors[e.field] = e.message })`. */
  method CollectFieldErrors(entries: seq<FieldMessage>) returns (errors: map<string, string>)
    ensures errors == LastWins(entries)
  {
    errors := map[];
    var i := 0;
    while i < |entries|
      invariant 0 <= i <= |entries|
      invariant errors == LastWins(entries[..i])
    {
      assert entries[..i + 1][..i] == entries[..i];
      errors := errors[entries[i].field := entries[i].message];
      i := i + 1;
    }
    assert entries[..i] == entries;
  }
}
