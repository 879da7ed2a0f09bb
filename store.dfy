/**
 * The component's state and its mutating handlers: `handleSubmit` (lines 55-76),
 * `handleEdit` (78-89), `handleDelete` (91-95) and `handleCancel` (97-102).
 */
module Store {
  import opened Wrappers
  import opened Text
  import opened Seqs
  import opened Records
  import opened Validation

  /** `expenses.map(exp => exp.id === id ? r : exp)`: every record with the id is replaced
      by `r`, every other record stays where it was. */
  function ReplaceById(s: seq<Expense>, id: int, r: Expense): (out: seq<Expense>)
    ensures |out| == |s|
    ensures forall i :: 0 <= i < |s| ==> out[i] == if s[i].id == id then r else s[i]
  {
    if s == [] then [] else [if s[0].id == id then r else s[0]] + ReplaceById(s[1..], id, r)
  }

  /** `expenses.filter(exp => exp.id !== id)`: no record with the id is left. */
  function RemoveById(s: seq<Expense>, id: int): (r: seq<Expense>)
    ensures |r| <= |s| && !HasId(r, id)
  {
    Filter(s, (e: Expense) => e.id != id)
  }

  predicate HasId(s: seq<Expense>, id: int) {
    exists i :: 0 <= i < |s| && s[i].id == id
  }

  function Ids(s: seq<Expense>): seq<int> {
    Project(s, (e: Expense) => e.id)
  }

  predicate AllWellFormed(s: seq<Expense>) {
    forall i :: 0 <= i < |s| ==> WellFormed(s[i])
  }

  predicate UniqueIds(s: seq<Expense>) {
    forall i, j :: 0 <= i < j < |s| ==> s[i].id != s[j].id
  }

  /** Updating an id no record has changes nothing. */
  lemma ReplaceAbsent(s: seq<Expense>, id: int, r: Expense)
    requires !HasId(s, id)
    ensures ReplaceById(s, id, r) == s
  {
  }

  /** After an update carrying the same id, every record with that id is the new record,
      it is present exactly when the id was, and the id column is unchanged. */
  lemma ReplaceLookup(s: seq<Expense>, id: int, r: Expense)
    requires r.id == id
    ensures forall e | e in ReplaceById(s, id, r) && e.id == id :: e == r
    ensures r in ReplaceById(s, id, r) <==> HasId(s, id)
    ensures Ids(ReplaceById(s, id, r)) == Ids(s)
  {
    var out := ReplaceById(s, id, r);
    if r in out {
      var i :| 0 <= i < |out| && out[i] == r;
      assert s[i].id == id;
    }
  }

  /** An update leaves the records with other ids, and their order, untouched. */
  lemma {:induction false} ReplaceKeepsOthers(s: seq<Expense>, id: int, r: Expense)
    requires r.id == id
    ensures RemoveById(ReplaceById(s, id, r), id) == RemoveById(s, id)
  {
    if s != [] {
      ReplaceKeepsOthers(s[1..], id, r);
      var out := ReplaceById(s, id, r);
      assert out[1..] == ReplaceById(s[1..], id, r);
    }
  }

  /** Delete keeps exactly the records whose id differs, in their order, and no record
      with the id survives. */
  lemma RemoveByIdSpec(s: seq<Expense>, id: int, x: Expense)
    ensures IsSubsequence(RemoveById(s, id), s)
    ensures !HasId(RemoveById(s, id), id)
    ensures multiset(RemoveById(s, id))[x] == if x.id != id then multiset(s)[x] else 0
  {
    FilterIsSubsequence(s, (e: Expense) => e.id != id);
    FilterCount(s, (e: Expense) => e.id != id, x);
  }

  /** Deleting an id no record has changes nothing. */
  lemma RemoveAbsent(s: seq<Expense>, id: int)
    requires !HasId(s, id)
    ensures RemoveById(s, id) == s
  {
    FilterKeepsAll(s, (e: Expense) => e.id != id);
  }

  /** Deleting twice is deleting once. */
  lemma RemoveIdempotent(s: seq<Expense>, id: int)
    ensures RemoveById(RemoveById(s, id), id) == RemoveById(s, id)
  {
    FilterIdempotent(s, (e: Expense) => e.id != id);
  }

  /** Deleting keeps ids unique. */
  lemma {:induction false} RemoveKeepsUnique(s: seq<Expense>, id: int)
    requires UniqueIds(s)
    ensures UniqueIds(RemoveById(s, id))
  {
    if s != [] {
      RemoveKeepsUnique(s[1..], id);
      var rest := RemoveById(s[1..], id);
      forall j | 0 <= j < |rest| ensures rest[j].id != s[0].id {
        FilterMembership(s[1..], (e: Expense) => e.id != id, rest[j]);
        var k :| 0 <= k < |s[1..]| && s[1..][k] == rest[j];
        assert s[k + 1] == rest[j];
      }
    }
  }

  /** Appending a record whose id is new keeps ids unique. */
  lemma AppendFreshKeepsUnique(s: seq<Expense>, r: Expense)
    requires UniqueIds(s) && !HasId(s, r.id)
    ensures UniqueIds(s + [r])
  {
  }

  /** An update carrying the replaced id keeps ids unique. */
  lemma ReplaceKeepsUnique(s: seq<Expense>, id: int, r: Expense)
    requires UniqueIds(s) && r.id == id
    ensures UniqueIds(ReplaceById(s, id, r))
  {
    ReplaceLookup(s, id, r);
    var out := ReplaceById(s, id, r);
    forall i, j | 0 <= i < j < |out| ensures out[i].id != out[j].id {
      assert Ids(out)[i] == out[i].id && Ids(out)[j] == out[j].id;
    }
  }

  /** An update with a well-formed record keeps every record well formed. */
  lemma ReplaceKeepsWellFormed(s: seq<Expense>, id: int, r: Expense)
    requires AllWellFormed(s) && WellFormed(r)
    ensures AllWellFormed(ReplaceById(s, id, r))
  {
  }

  /** JavaScript truthiness of `editingId`: `null` and `0` are false. */
  predicate Editing(editingId: Option<int>): (b: bool)
    ensures b ==> editingId.Some?
    ensures editingId == Some(0) ==> !b
  {
    editingId.Some? && editingId.value != 0
  }

  /** The form `handleEdit` fills in from a record; `amountText` stands for `amount.toString()`. */
  function EditForm(e: Expense, amountText: string): Form {
    Form(AmountField(amountText, Some(e.amount)), e.date, e.note, e.category)
  }

  /** Updating a record with itself changes nothing when ids are unique. */
  lemma ReplaceWithSelf(s: seq<Expense>, e: Expense)
    requires UniqueIds(s) && e in s
    ensures ReplaceById(s, e.id, e) == s
  {
    var k :| 0 <= k < |s| && s[k] == e;
    forall i | 0 <= i < |s| && s[i].id == e.id ensures s[i] == e {
      assert i == k;
    }
  }

  /** Editing a stored record and submitting the form unchanged passes validation and gives
      back the same record, so the list is unchanged. */
  lemma EditResubmitKeepsList(s: seq<Expense>, e: Expense, amountText: string)
    requires AllWellFormed(s) && UniqueIds(s) && e in s && amountText != []
    ensures Validate(EditForm(e, amountText)).Pass?
    ensures Normalize(EditForm(e, amountText), e.id) == e
    ensures ReplaceById(s, e.id, Normalize(EditForm(e, amountText), e.id)) == s
  {
    TrimmedIsFixed(e.note);
    ReplaceWithSelf(s, e);
  }

  /** A submit keeps every record well formed, and keeps ids unique when it edits or when
      the fresh id is new. */
  lemma SubmitKeepsInvariants(s: seq<Expense>, editingId: Option<int>, f: Form, freshId: int)
    requires Validate(f).Pass?
    ensures Editing(editingId) ==>
      var next := ReplaceById(s, editingId.value, Normalize(f, editingId.value));
      (AllWellFormed(s) ==> AllWellFormed(next)) && (UniqueIds(s) ==> UniqueIds(next))
    ensures !Editing(editingId) ==>
      var next := s + [Normalize(f, freshId)];
      (AllWellFormed(s) ==> AllWellFormed(next))
      && (UniqueIds(s) && !HasId(s, freshId) ==> UniqueIds(next))
  {
    if Editing(editingId) {
      var id := editingId.value;
      var e := Normalize(f, id);
      if AllWellFormed(s) {
        ReplaceKeepsWellFormed(s, id, e);
      }
      if UniqueIds(s) {
        ReplaceKeepsUnique(s, id, e);
      }
    } else {
      var e := Normalize(f, freshId);
      if UniqueIds(s) && !HasId(s, freshId) {
        AppendFreshKeepsUnique(s, e);
      }
    }
  }

  /** The component's state: the expense list, the record being edited, the form and the error line. */
  class Tracker {
    var expenses: seq<Expense>
    var editingId: Option<int>
    var form: Form
    var error: string

    /** Every stored record is one a submit can produce. */
    predicate Valid()
      reads this
    {
      AllWellFormed(expenses)
    }

    /** The initial state (before the demo records are seeded). */
    constructor(today: string)
      ensures Valid()
      ensures expenses == [] && editingId == None && form == BlankForm(today) && error == ""
    {
      expenses := [];
      editingId := None;
      form := BlankForm(today);
      error := "";
    }

    /** `validateForm`: sets the error line to the first failure's message, or clears it. */
    method ValidateForm() returns (ok: bool)
      modifies this`error
      ensures ok <==> Validate(form).Pass?
      ensures error == if ok then "" else Message(Validate(form).error)
    {
      var v := Validate(form);
      if v.Fail? {
        error := Message(v.error);
        return false;
      }
      error := "";
      return true;
    }

    /** `handleSubmit`. `freshId` stands for `Date.now()` and `today` for the reset form's date.
        On a failed validation only the error line changes. Otherwise the normalised record is
        appended under `freshId`, or, while editing, replaces every record with the edited id,
        which it keeps; editing then stops, the form is reset and the error cleared. */
    method Submit(freshId: int, today: string)
      requires Valid()
      modifies this
      ensures Valid()
      ensures Validate(old(form)).Fail? ==>
        expenses == old(expenses) && editingId == old(editingId) && form == old(form)
        && error == Message(Validate(old(form)).error)
      ensures Validate(old(form)).Pass? && Editing(old(editingId)) ==>
        var id := old(editingId).value;
        expenses == ReplaceById(old(expenses), id, Normalize(old(form), id))
        && editingId == None && form == BlankForm(today) && error == ""
      ensures Validate(old(form)).Pass? && !Editing(old(editingId)) ==>
        expenses == old(expenses) + [Normalize(old(form), freshId)]
        && editingId == old(editingId) && form == BlankForm(today) && error == ""
      ensures old(UniqueIds(expenses)) && (Editing(old(editingId)) || !HasId(old(expenses), freshId))
        ==> UniqueIds(expenses)
    {
      var ok := ValidateForm();
      if !ok {
        return;
      }
      SubmitKeepsInvariants(expenses, editingId, form, freshId);
      if Editing(editingId) {
        var id := editingId.value;
        expenses := ReplaceById(expenses, id, Normalize(form, id));
        editingId := None;
      } else {
        expenses := expenses + [Normalize(form, freshId)];
      }
      form := BlankForm(today);
      error := "";
    }

    /** `handleEdit`: loads a record into the form and marks its id as being edited.
        `amountText` stands for `amount.toString()`. */
    method Edit(e: Expense, amountText: string)
      modifies this`form, this`editingId, this`error
      ensures form == Form(AmountField(amountText, Some(e.amount)), e.date, e.note, e.category)
      ensures editingId == Some(e.id) && error == ""
    {
      form := EditForm(e, amountText);
      editingId := Some(e.id);
      error := "";
    }

    /** `handleDelete`: when the user confirmed, drops every record with the id. */
    method Delete(id: int, confirmed: bool)
      requires Valid()
      modifies this`expenses
      ensures Valid()
      ensures expenses == if confirmed then RemoveById(old(expenses), id) else old(expenses)
      ensures old(UniqueIds(expenses)) ==> UniqueIds(expenses)
    {
      if confirmed {
        if UniqueIds(expenses) {
          RemoveKeepsUnique(expenses, id);
        }
        forall j | 0 <= j < |RemoveById(expenses, id)|
          ensures WellFormed(RemoveById(expenses, id)[j])
        {
          FilterMembership(expenses, (e: Expense) => e.id != id, RemoveById(expenses, id)[j]);
        }
        expenses := RemoveById(expenses, id);
      }
    }

    /** `handleCancel`: stops editing, resets the form and clears the error line. */
    method Cancel(today: string)
      modifies this`form, this`editingId, this`error
      ensures editingId == None && form == BlankForm(today) && error == ""
    {
      editingId := None;
      form := BlankForm(today);
      error := "";
    }
  }
}
