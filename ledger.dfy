/**
 * The cheque ledger of the page component (app/page.js): the row record, the date
 * reformatter, the row transitions behind the save, cancel, delete, edit and scan
 * handlers, and the two filters (what is persisted, what the view always shows).
 *
 * The clock (`Date.now()` for a new row's id, `new Date()` for today's date) and the
 * operator's answer to `window.confirm` are parameters.
 */
module Ledger {
  import opened Common
  import opened Json
  import JsString

  /** One ledger row. `isNew` marks the draft row that has not been saved yet. */
  datatype Cheque = Cheque(
    id: string,
    chequeNumber: string,
    bankName: string,
    date: string,
    ownerName: string,
    amount: string,
    photo: string,
    saveDate: string,
    isNew: bool)

  /** The text fields a row can be edited on (`handleChange`'s `field` argument). */
  datatype Field = ChequeNumber | BankName | Date | OwnerName | Amount | Photo | SaveDate

  function Get(c: Cheque, f: Field): string {
    match f
    case ChequeNumber => c.chequeNumber
    case BankName => c.bankName
    case Date => c.date
    case OwnerName => c.ownerName
    case Amount => c.amount
    case Photo => c.photo
    case SaveDate => c.saveDate
  }

  /** `{ ...c, [f]: value }`: the named field reads `value`, every other field and the id and draft flag are kept. */
  function Set(c: Cheque, f: Field, value: string): (r: Cheque)
    ensures r.id == c.id && r.isNew == c.isNew
    ensures forall g :: Get(r, g) == if g == f then value else Get(c, g)
  {
    match f
    case ChequeNumber => c.(chequeNumber := value)
    case BankName => c.(bankName := value)
    case Date => c.(date := value)
    case OwnerName => c.(ownerName := value)
    case Amount => c.(amount := value)
    case Photo => c.(photo := value)
    case SaveDate => c.(saveDate := value)
  }

  // ----- formatDate -----

  /** A destructured part of the split date; a missing part is `undefined`, which the template renders as text. */
  function DatePart(parts: seq<string>, i: nat): string {
    if i < |parts| then parts[i] else "undefined"
  }

  /** `formatDate`: "" stays "", otherwise the first three dash-separated parts in reverse order, joined by "/". */
  function FormatDate(dateString: string): (r: string)
    ensures dateString == "" ==> r == ""
    ensures dateString != "" ==> '/' in r
  {
    if dateString == "" then "" else
      var parts := JsString.Split(dateString, '-');
      DatePart(parts, 2) + "/" + DatePart(parts, 1) + "/" + DatePart(parts, 0)
  }

  lemma FormatDateReverses(year: string, month: string, day: string)
    requires '-' !in year && '-' !in month && '-' !in day
    ensures FormatDate(year + "-" + month + "-" + day) == day + "/" + month + "/" + year
  {
    var parts := [year, month, day];
    assert JsString.Join(parts, '-') == year + "-" + month + "-" + day by {
      assert parts[1..] == [month, day];
      assert parts[1..][1..] == [day];
      assert JsString.Join([day], '-') == day;
      assert JsString.Join([month, day], '-') == month + "-" + day;
    }
    JsString.SplitJoin(parts, '-');
  }

  /** Text with no dash has a single part, so month and day render as "undefined". */
  lemma FormatDateWithoutDash(s: string)
    requires s != "" && '-' !in s
    ensures FormatDate(s) == "undefined/undefined/" + s
  {
  }

  // ----- rows -----

  /** The save guard: the six required fields are all non-empty. */
  predicate Complete(c: Cheque) {
    c.chequeNumber != "" && c.bankName != "" && c.date != "" && c.ownerName != "" && c.amount != "" && c.photo != ""
  }

  /** `createEmptyRow`: a draft stamped with the given id and date, all six required fields empty. */
  function CreateEmptyRow(freshId: string, today: string): (r: Cheque)
    ensures r.id == freshId && r.saveDate == today && r.isNew
    ensures r.chequeNumber == "" && r.bankName == "" && r.date == "" && r.ownerName == "" && r.amount == ""
    ensures r.photo == ""
    ensures !Complete(r)
  {
    Cheque(freshId, "", "", "", "", "", "", today, true)
  }

  /** Position of the first row with this id, or |rows| when there is none. */
  function FindIndex(rows: seq<Cheque>, id: string): (k: nat)
    ensures k <= |rows|
    ensures k < |rows| ==> rows[k].id == id
    ensures forall j | 0 <= j < k :: rows[j].id != id
  {
    if rows == [] then 0
    else if rows[0].id == id then 0
    else 1 + FindIndex(rows[1..], id)
  }

  /** `rows.find(c => c.id === id)`. */
  function Find(rows: seq<Cheque>, id: string): (r: Option<Cheque>)
    ensures r.None? <==> forall j | 0 <= j < |rows| :: rows[j].id != id
    ensures r.Some? ==> FindIndex(rows, id) < |rows| && r.value == rows[FindIndex(rows, id)]
  {
    var k := FindIndex(rows, id);
    if k < |rows| then Some(rows[k]) else None
  }

  /** `handleSave`'s guard: the first row with this id exists and is complete. */
  predicate CanSave(rows: seq<Cheque>, id: string) {
    var found := Find(rows, id);
    found.Some? && Complete(found.value)
  }

  predicate HasDraft(rows: seq<Cheque>) {
    exists k | 0 <= k < |rows| :: rows[k].isNew
  }

  function DraftCount(rows: seq<Cheque>): nat {
    if rows == [] then 0 else (if rows[0].isNew then 1 else 0) + DraftCount(rows[1..])
  }

  predicate IsSaved(c: Cheque) {
    !c.isNew
  }

  /** `rows.filter(keep)`: only kept rows, each with its original multiplicity. */
  function Filter(rows: seq<Cheque>, keep: Cheque -> bool): (r: seq<Cheque>)
    ensures |r| <= |rows|
    ensures forall k | 0 <= k < |r| :: keep(r[k])
    ensures forall c: Cheque :: multiset(r)[c] == if keep(c) then multiset(rows)[c] else 0
  {
    if rows == [] then [] else
      assert rows == [rows[0]] + rows[1..];
      (if keep(rows[0]) then [rows[0]] else []) + Filter(rows[1..], keep)
  }

  /** Filtering keeps the relative order: it distributes over concatenation. */
  lemma {:induction false} FilterConcat(a: seq<Cheque>, b: seq<Cheque>, keep: Cheque -> bool)
    ensures Filter(a + b, keep) == Filter(a, keep) + Filter(b, keep)
    decreases |a|
  {
    var ab := a + b;
    if a == [] {
      assert ab == b;
    } else {
      var head := if keep(a[0]) then [a[0]] else [];
      assert ab != [] && ab[0] == a[0] && ab[1..] == a[1..] + b;
      calc {
        Filter(ab, keep);
        head + Filter(ab[1..], keep);
        head + Filter(a[1..] + b, keep);
        { FilterConcat(a[1..], b, keep); }
        head + (Filter(a[1..], keep) + Filter(b, keep));
        (head + Filter(a[1..], keep)) + Filter(b, keep);
        Filter(a, keep) + Filter(b, keep);
      }
    }
  }

  // ----- the transitions -----

  /** The `map` in `handleSave`: every row with this id is marked saved on `today`. */
  function MarkSaved(rows: seq<Cheque>, id: string, today: string): (r: seq<Cheque>)
    ensures |r| == |rows|
    ensures forall k | 0 <= k < |rows| ::
      r[k] == if rows[k].id == id then rows[k].(isNew := false, saveDate := today) else rows[k]
  {
    seq(|rows|, k requires 0 <= k < |rows| =>
      if rows[k].id == id then rows[k].(isNew := false, saveDate := today) else rows[k])
  }

  /** The conditional `push(createEmptyRow())` shared by save, cancel and delete: only when no draft is left. */
  function WithDraft(rows: seq<Cheque>, draft: Cheque): (r: seq<Cheque>)
    requires draft.isNew
    ensures HasDraft(r)
    ensures HasDraft(rows) ==> r == rows
    ensures !HasDraft(rows) ==> r == rows + [draft]
  {
    if HasDraft(rows) then rows else
      var r := rows + [draft];
      assert r[|rows|].isNew;
      r
  }

  /** Every draft in the ledger has this id: removing or saving the rows with it leaves no draft. */
  predicate DraftsOnlyWith(rows: seq<Cheque>, id: string) {
    forall k | 0 <= k < |rows| :: rows[k].isNew ==> rows[k].id == id
  }

  /**
   * `handleSave(id)` as a function of the ledger. Rejected: nothing changes. Accepted:
   * the rows with this id become saved on `today`, every other row is kept, and exactly
   * when no draft is left one new draft is appended.
   */
  function Save(rows: seq<Cheque>, id: string, today: string, freshId: string): (r: seq<Cheque>)
    ensures !CanSave(rows, id) ==> r == rows
    ensures CanSave(rows, id) ==> HasDraft(r) && |rows| <= |r| <= |rows| + 1
    ensures CanSave(rows, id) ==> forall k | 0 <= k < |rows| ::
      r[k] == if rows[k].id == id then rows[k].(isNew := false, saveDate := today) else rows[k]
    ensures CanSave(rows, id) ==> (|r| == |rows| + 1 <==> DraftsOnlyWith(rows, id))
    ensures |r| == |rows| + 1 ==> r[|rows|] == CreateEmptyRow(freshId, today)
  {
    if CanSave(rows, id) then
      var marked := MarkSaved(rows, id, today);
      assert !HasDraft(marked) <==> DraftsOnlyWith(rows, id) by {
        if DraftsOnlyWith(rows, id) {
          assert forall k | 0 <= k < |marked| :: !marked[k].isNew;
        }
      }
      WithDraft(marked, CreateEmptyRow(freshId, today))
    else rows
  }

  function KeptOnCancel(id: string): Cheque -> bool {
    (c: Cheque) => c.id != id || !c.isNew
  }

  function KeptOnDelete(id: string): Cheque -> bool {
    (c: Cheque) => c.id != id
  }

  /** A filter that drops exactly the drafts with this id (whatever it does to saved rows) leaves a draft unless every draft had it. */
  lemma FilterLeavesDraft(rows: seq<Cheque>, keep: Cheque -> bool, id: string)
    requires forall c: Cheque | c.isNew :: keep(c) <==> c.id != id
    ensures HasDraft(Filter(rows, keep)) <==> !DraftsOnlyWith(rows, id)
  {
    var kept := Filter(rows, keep);
    if !DraftsOnlyWith(rows, id) {
      var k :| 0 <= k < |rows| && rows[k].isNew && rows[k].id != id;
      assert multiset(rows)[rows[k]] > 0;
      assert rows[k] in kept;
    }
    if HasDraft(kept) {
      var i :| 0 <= i < |kept| && kept[i].isNew;
      assert multiset(kept)[kept[i]] > 0;
      assert kept[i] in rows;
    }
  }

  /**
   * Filtering out drafts with this id and then re-creating a draft: the kept rows come
   * first in their order, and the new draft follows exactly when every draft had the id.
   */
  lemma FilterThenDraft(rows: seq<Cheque>, keep: Cheque -> bool, id: string, draft: Cheque)
    requires draft.isNew
    requires forall c: Cheque | c.isNew :: keep(c) <==> c.id != id
    ensures var r := WithDraft(Filter(rows, keep), draft);
      var n := if DraftsOnlyWith(rows, id) then |r| - 1 else |r|;
      && (forall c: Cheque ::
            multiset(r)[c] == (if keep(c) then multiset(rows)[c] else 0)
                              + (if DraftsOnlyWith(rows, id) && c == draft then 1 else 0))
      && (DraftsOnlyWith(rows, id) ==> r[|r| - 1] == draft)
      && 0 <= n && r[..n] == Filter(rows, keep)
  {
    FilterLeavesDraft(rows, keep, id);
    DraftAfter(Filter(rows, keep), draft);
  }

  /** After `WithDraft`, the rows it was given come first, and the draft is last when it was added. */
  lemma DraftAfter(kept: seq<Cheque>, draft: Cheque)
    requires draft.isNew
    ensures var r := WithDraft(kept, draft);
      var n := if HasDraft(kept) then |r| else |r| - 1;
      && (forall c: Cheque :: multiset(r)[c] == multiset(kept)[c] + (if !HasDraft(kept) && c == draft then 1 else 0))
      && (!HasDraft(kept) ==> r[|r| - 1] == draft)
      && 0 <= n && r[..n] == kept
  {
    var r := WithDraft(kept, draft);
    if HasDraft(kept) {
      assert r[..|r|] == kept;
    } else {
      assert multiset(r) == multiset(kept) + multiset{draft};
      assert r[..|r| - 1] == kept;
    }
  }

  /**
   * `handleCancel(id)`: removes exactly the draft rows with this id (saved rows with it
   * stay), keeps the order of the rest, and appends a new draft exactly when the removed
   * drafts were all the drafts there were.
   */
  function Cancel(rows: seq<Cheque>, id: string, today: string, freshId: string): (r: seq<Cheque>)
    ensures HasDraft(r)
    ensures |r| <= |rows| + 1
    ensures forall c: Cheque ::
      multiset(r)[c] == (if c.id == id && c.isNew then 0 else multiset(rows)[c])
                        + (if DraftsOnlyWith(rows, id) && c == CreateEmptyRow(freshId, today) then 1 else 0)
    ensures DraftsOnlyWith(rows, id) ==> r[|r| - 1] == CreateEmptyRow(freshId, today)
    ensures var n := if DraftsOnlyWith(rows, id) then |r| - 1 else |r|;
      0 <= n && r[..n] == Filter(rows, KeptOnCancel(id))
  {
    FilterThenDraft(rows, KeptOnCancel(id), id, CreateEmptyRow(freshId, today));
    WithDraft(Filter(rows, KeptOnCancel(id)), CreateEmptyRow(freshId, today))
  }

  /**
   * `handleDelete(id)`: unconfirmed, nothing changes; confirmed, every row with this id
   * goes whatever its state, the rest keep their order, and a new draft is appended
   * exactly when every draft had this id.
   */
  function Delete(rows: seq<Cheque>, id: string, confirmed: bool, today: string, freshId: string): (r: seq<Cheque>)
    ensures !confirmed ==> r == rows
    ensures confirmed ==> HasDraft(r) && |r| <= |rows| + 1
    ensures confirmed ==> forall c: Cheque ::
      multiset(r)[c] == (if c.id == id then 0 else multiset(rows)[c])
                        + (if DraftsOnlyWith(rows, id) && c == CreateEmptyRow(freshId, today) then 1 else 0)
    ensures confirmed && DraftsOnlyWith(rows, id) ==> r[|r| - 1] == CreateEmptyRow(freshId, today)
    ensures confirmed ==> var n := if DraftsOnlyWith(rows, id) then |r| - 1 else |r|;
      0 <= n && r[..n] == Filter(rows, KeptOnDelete(id))
  {
    if !confirmed then rows else
      FilterThenDraft(rows, KeptOnDelete(id), id, CreateEmptyRow(freshId, today));
      WithDraft(Filter(rows, KeptOnDelete(id)), CreateEmptyRow(freshId, today))
  }

  /** `handleChange(id, field, value)`: same length and order; only `field` of the rows with this id changes. */
  function Change(rows: seq<Cheque>, id: string, field: Field, value: string): (r: seq<Cheque>)
    ensures |r| == |rows|
    ensures forall k | 0 <= k < |rows| && rows[k].id != id :: r[k] == rows[k]
    ensures forall k | 0 <= k < |rows| :: r[k].id == rows[k].id && r[k].isNew == rows[k].isNew
    ensures forall k, g | 0 <= k < |rows| ::
      Get(r[k], g) == if rows[k].id == id && g == field then value else Get(rows[k], g)
  {
    seq(|rows|, k requires 0 <= k < |rows| => if rows[k].id == id then Set(rows[k], field, value) else rows[k])
  }

  /** `resIjson[key]` stored into a text field; a missing or non-string value is written as "". */
  function ScanText(body: JsonValue, key: string): string {
    match StringMember(body, key)
    case Some(s) => s
    case None => ""
  }

  /** `/scanned/${resIjson.path}`. */
  function ScanPhoto(body: JsonValue): string {
    "/scanned/" + match StringMember(body, "path")
                  case Some(s) => s
                  case None => "undefined"
  }

  /**
   * The `map` in `handlePhotoChange`: the rows with this id take the scanned fields
   * through the fixed key mapping; their id, draft flag and save date are kept, and so
   * is every other row.
   */
  function Merge(rows: seq<Cheque>, id: string, body: JsonValue): (r: seq<Cheque>)
    ensures |r| == |rows|
    ensures forall k | 0 <= k < |rows| && rows[k].id != id :: r[k] == rows[k]
    ensures forall k | 0 <= k < |rows| && rows[k].id == id ::
      && r[k].id == id && r[k].isNew == rows[k].isNew && r[k].saveDate == rows[k].saveDate
      && r[k].amount == ScanText(body, "amount")
      && r[k].date == ScanText(body, "date")
      && r[k].ownerName == ScanText(body, "owner")
      && r[k].chequeNumber == ScanText(body, "chequeNum")
      && r[k].bankName == ScanText(body, "BankName")
      && r[k].photo == ScanPhoto(body)
  {
    seq(|rows|, k requires 0 <= k < |rows| =>
      if rows[k].id == id then
        rows[k].(amount := ScanText(body, "amount"), date := ScanText(body, "date"),
                 ownerName := ScanText(body, "owner"), chequeNumber := ScanText(body, "chequeNum"),
                 bankName := ScanText(body, "BankName"), photo := ScanPhoto(body))
      else rows[k])
  }

  /**
   * The merge runs: axios resolves for a 2xx status and rejects otherwise (None is a
   * transport failure), and reading `resIjson.amount` off a `null` body throws, which
   * the catch turns into "leave the ledger alone" as well. (With no matching row the
   * map never reads the body, and the ledger is unchanged either way.)
   */
  predicate ScanSucceeded(reply: Option<Reply>) {
    reply.Some? && 200 <= reply.value.status < 300 && !reply.value.body.JNull?
  }

  /** `handlePhotoChange(id)` once the request has settled: merge on success, leave the ledger alone on failure. */
  function ApplyScan(rows: seq<Cheque>, id: string, reply: Option<Reply>): (r: seq<Cheque>)
    ensures !ScanSucceeded(reply) ==> r == rows
    ensures ScanSucceeded(reply) ==> r == Merge(rows, id, reply.value.body)
    ensures |r| == |rows| && forall k | 0 <= k < |rows| :: r[k].isNew == rows[k].isNew
  {
    if ScanSucceeded(reply) then Merge(rows, id, reply.value.body) else rows
  }

  /** `cheques.filter(cheque => !cheque.isNew)`: what goes to local storage; never a draft. */
  function Persisted(rows: seq<Cheque>): (r: seq<Cheque>)
    ensures forall k | 0 <= k < |r| :: !r[k].isNew
    ensures forall c: Cheque | !c.isNew :: multiset(r)[c] == multiset(rows)[c]
  {
    Filter(rows, IsSaved)
  }

  /** `filteredCheques`, with the date-based filter as the predicate `keepSaved`: drafts always pass. */
  function Visible(rows: seq<Cheque>, keepSaved: Cheque -> bool): (r: seq<Cheque>)
    ensures forall c: Cheque | c in rows && c.isNew :: c in r
    ensures forall c: Cheque | c in rows && keepSaved(c) :: c in r
    ensures forall c: Cheque | c in r :: c in rows && (c.isNew || keepSaved(c))
  {
    var r := Filter(rows, (c: Cheque) => c.isNew || keepSaved(c));
    assert forall c: Cheque | c in r :: multiset(r)[c] > 0;
    assert forall c: Cheque | c in rows :: multiset(rows)[c] > 0;
    r
  }

  // ----- properties relating the transitions -----

  lemma {:induction false} DraftCountPositive(rows: seq<Cheque>)
    ensures DraftCount(rows) > 0 <==> HasDraft(rows)
  {
    if rows != [] {
      DraftCountPositive(rows[1..]);
      if HasDraft(rows[1..]) {
        var k :| 0 <= k < |rows[1..]| && rows[1..][k].isNew;
        assert rows[k + 1].isNew;
      }
      if HasDraft(rows) && !rows[0].isNew {
        var k :| 0 <= k < |rows| && rows[k].isNew;
        assert rows[1..][k - 1].isNew;
      }
    }
  }

  lemma {:induction false} DraftCountAppend(a: seq<Cheque>, b: seq<Cheque>)
    ensures DraftCount(a + b) == DraftCount(a) + DraftCount(b)
    decreases |a|
  {
    if a == [] {
      assert a + b == b;
    } else {
      assert (a + b)[0] == a[0];
      assert (a + b)[1..] == a[1..] + b;
      DraftCountAppend(a[1..], b);
    }
  }

  /** Row by row, fewer drafts gives a smaller draft count. */
  lemma {:induction false} DraftCountMono(a: seq<Cheque>, b: seq<Cheque>)
    requires |a| == |b|
    requires forall k | 0 <= k < |a| :: a[k].isNew ==> b[k].isNew
    ensures DraftCount(a) <= DraftCount(b)
    decreases |a|
  {
    if a != [] {
      DraftCountMono(a[1..], b[1..]);
    }
  }

  lemma {:induction false} DraftCountFilter(rows: seq<Cheque>, keep: Cheque -> bool)
    ensures DraftCount(Filter(rows, keep)) <= DraftCount(rows)
    decreases |rows|
  {
    if rows != [] {
      DraftCountFilter(rows[1..], keep);
      var head := if keep(rows[0]) then [rows[0]] else [];
      DraftCountAppend(head, Filter(rows[1..], keep));
    }
  }

  lemma WithDraftKeepsOne(rows: seq<Cheque>, draft: Cheque)
    requires draft.isNew && DraftCount(rows) <= 1
    ensures DraftCount(WithDraft(rows, draft)) == 1
  {
    DraftCountPositive(rows);
    if !HasDraft(rows) {
      DraftCountAppend(rows, [draft]);
      assert DraftCount([draft]) == 1 by {
        assert [draft][1..] == [];
      }
    }
  }

  /** Starting from exactly one draft, a save leaves exactly one draft. */
  lemma SaveKeepsOneDraft(rows: seq<Cheque>, id: string, today: string, freshId: string)
    requires DraftCount(rows) == 1
    ensures DraftCount(Save(rows, id, today, freshId)) == 1
  {
    if CanSave(rows, id) {
      var marked := MarkSaved(rows, id, today);
      DraftCountMono(marked, rows);
      WithDraftKeepsOne(marked, CreateEmptyRow(freshId, today));
    }
  }

  lemma CancelKeepsOneDraft(rows: seq<Cheque>, id: string, today: string, freshId: string)
    requires DraftCount(rows) == 1
    ensures DraftCount(Cancel(rows, id, today, freshId)) == 1
  {
    DraftCountFilter(rows, KeptOnCancel(id));
    WithDraftKeepsOne(Filter(rows, KeptOnCancel(id)), CreateEmptyRow(freshId, today));
  }

  lemma DeleteKeepsOneDraft(rows: seq<Cheque>, id: string, confirmed: bool, today: string, freshId: string)
    requires DraftCount(rows) == 1
    ensures DraftCount(Delete(rows, id, confirmed, today, freshId)) == 1
  {
    if confirmed {
      DraftCountFilter(rows, KeptOnDelete(id));
      WithDraftKeepsOne(Filter(rows, KeptOnDelete(id)), CreateEmptyRow(freshId, today));
    }
  }

  /** Field edits and scan merges never touch the draft flag, so the number of drafts stays. */
  lemma EditsKeepDraftCount(rows: seq<Cheque>, id: string, field: Field, value: string, reply: Option<Reply>)
    ensures DraftCount(Change(rows, id, field, value)) == DraftCount(rows)
    ensures DraftCount(ApplyScan(rows, id, reply)) == DraftCount(rows)
  {
    var changed := Change(rows, id, field, value);
    DraftCountMono(changed, rows);
    DraftCountMono(rows, changed);
    var scanned := ApplyScan(rows, id, reply);
    DraftCountMono(scanned, rows);
    DraftCountMono(rows, scanned);
  }

  /** The ledger loaded at startup from what was persisted holds exactly one draft. */
  lemma ReloadHasOneDraft(rows: seq<Cheque>, freshId: string, today: string)
    ensures DraftCount(Persisted(rows) + [CreateEmptyRow(freshId, today)]) == 1
  {
    var stored := Persisted(rows);
    DraftCountPositive(stored);
    WithDraftKeepsOne(stored, CreateEmptyRow(freshId, today));
  }

  /** A saved row with the cancelled id survives cancel; delete removes it. */
  lemma CancelKeepsSavedDeleteRemoves(rows: seq<Cheque>, id: string, today: string, freshId: string, c: Cheque)
    requires c in rows && c.id == id && !c.isNew
    ensures c in Cancel(rows, id, today, freshId)
    ensures c !in Delete(rows, id, true, today, freshId)
  {
    assert multiset(rows)[c] > 0;
  }

  /** After a successful save the saved row, stamped with today's date, is among the persisted rows. */
  lemma SavedRowIsPersisted(rows: seq<Cheque>, id: string, today: string, freshId: string)
    requires CanSave(rows, id)
    ensures Find(rows, id).value.(isNew := false, saveDate := today) in Persisted(Save(rows, id, today, freshId))
  {
    var k := FindIndex(rows, id);
    var r := Save(rows, id, today, freshId);
    var c := rows[k].(isNew := false, saveDate := today);
    assert r[k] == c;
    assert multiset(r)[c] > 0;
    assert multiset(Persisted(r))[c] == multiset(r)[c];
  }

  /**
   * The page's state: the ledger and the id of the saved row open for editing
   * (`editId`, None for `null`). Each handler replaces `cheques` with the transition
   * of the current ledger; every handler keeps a draft row present.
   */
  class ChequeApp {
    var cheques: seq<Cheque>
    var editId: Option<string>

    ghost predicate Valid()
      reads this
    {
      HasDraft(cheques)
    }

    /** Startup: the stored rows followed by one draft. */
    constructor (stored: seq<Cheque>, freshId: string, today: string)
      ensures Valid()
      ensures cheques == stored + [CreateEmptyRow(freshId, today)] && editId == None
    {
      var loaded := stored + [CreateEmptyRow(freshId, today)];
      assert loaded[|stored|].isNew;
      cheques := loaded;
      editId := None;
    }

    method HandleEdit(id: string)
      modifies this
      ensures cheques == old(cheques) && editId == Some(id)
    {
      editId := Some(id);
    }

    method HandleSave(id: string, today: string, freshId: string) returns (saved: bool)
      requires Valid()
      modifies this
      ensures Valid()
      ensures saved == CanSave(old(cheques), id)
      ensures cheques == Save(old(cheques), id, today, freshId)
      ensures editId == if saved then None else old(editId)
    {
      saved := CanSave(cheques, id);
      if saved {
        var updated := MarkSaved(cheques, id, today);
        if !HasDraft(updated) {
          updated := updated + [CreateEmptyRow(freshId, today)];
          assert updated[|updated| - 1].isNew;
        }
        cheques := updated;
        editId := None;
      }
    }

    method HandleCancel(id: string, today: string, freshId: string)
      modifies this
      ensures Valid()
      ensures cheques == Cancel(old(cheques), id, today, freshId) && editId == None
    {
      var updated := Filter(cheques, KeptOnCancel(id));
      if !HasDraft(updated) {
        updated := updated + [CreateEmptyRow(freshId, today)];
        assert updated[|updated| - 1].isNew;
      }
      cheques := updated;
      editId := None;
    }

    method HandleDelete(id: string, confirmed: bool, today: string, freshId: string)
      requires Valid()
      modifies this
      ensures Valid()
      ensures cheques == Delete(old(cheques), id, confirmed, today, freshId) && editId == old(editId)
    {
      if confirmed {
        var updated := Filter(cheques, KeptOnDelete(id));
        if !HasDraft(updated) {
          updated := updated + [CreateEmptyRow(freshId, today)];
          assert updated[|updated| - 1].isNew;
        }
        cheques := updated;
      }
    }

    method HandleChange(id: string, field: Field, value: string)
      requires Valid()
      modifies this
      ensures Valid()
      ensures cheques == Change(old(cheques), id, field, value) && editId == old(editId)
    {
      var before := cheques;
      cheques := Change(cheques, id, field, value);
      EditsKeepDraftCount(before, id, field, value, None);
      DraftCountPositive(before);
      DraftCountPositive(cheques);
    }

    /** `handlePhotoChange(id)` once `scanCheque(id)` has settled with `reply`. */
    method HandlePhotoChange(id: string, reply: Option<Reply>)
      requires Valid()
      modifies this
      ensures Valid()
      ensures cheques == ApplyScan(old(cheques), id, reply) && editId == old(editId)
    {
      if ScanSucceeded(reply) {
        var before := cheques;
        cheques := Merge(cheques, id, reply.value.body);
        EditsKeepDraftCount(before, id, Amount, "", reply);
        DraftCountPositive(before);
        DraftCountPositive(cheques);
      }
    }

    /** The second effect: the rows written to local storage after every change. */
    function ChequesToSave(): (r: seq<Cheque>)
      reads this
      ensures forall k | 0 <= k < |r| :: !r[k].isNew
    {
      Persisted(cheques)
    }
  }
}
