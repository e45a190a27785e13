/**
 * What the handlers change: the two upload directories on disk and the
 * `forms` collection. `public/pdf` holds the raw uploads by stored name and
 * `public/merged_pdf` the merged documents; a file's bytes are abstracted
 * to what the merge reads from them. The collection is kept in its natural
 * order, which is the order `findById` and friends scan it in.
 */
module Storage {
  import opened Wrappers
  import opened Strings
  import opened Records
  import opened Merge
  import opened Lists

  // ---------------------------------------------------------------------
  // Directories
  // ---------------------------------------------------------------------

  /** The directory after `unlinkSync` of each of `names` that `existsSync` still finds, in order. */
  function Unlinked<V>(dir: map<string, V>, names: seq<string>): map<string, V>
    decreases |names|
  {
    if names == [] then dir
    else Unlinked(dir, names[..|names| - 1]) - {names[|names| - 1]}
  }

  /** Unlinking a list of names removes exactly those names; every other file keeps its content. */
  lemma {:induction false} UnlinkedRemovesExactly<V>(dir: map<string, V>, names: seq<string>)
    ensures forall k :: k in Unlinked(dir, names) <==> k in dir && k !in names
    ensures forall k :: k in Unlinked(dir, names) ==> Unlinked(dir, names)[k] == dir[k]
    decreases |names|
  {
    if names != [] {
      var n := |names| - 1;
      UnlinkedRemovesExactly(dir, names[..n]);
      assert forall k :: k in names <==> k in names[..n] || k == names[n];
    }
  }

  /** The directory after `writeFileSync` of `contents[i]` under `names[i]`, in order: a later write replaces an earlier one. */
  function Written<V>(dir: map<string, V>, names: seq<string>, contents: seq<V>): map<string, V>
    requires |names| == |contents|
    decreases |names|
  {
    if names == [] then dir
    else
      var n := |names| - 1;
      Written(dir, names[..n], contents[..n])[names[n] := contents[n]]
  }

  /**
   * After the writes every written name is present and holds what its last
   * write put there; every other name is as before.
   */
  lemma {:induction false} WrittenHoldsLastWrite<V>(dir: map<string, V>, names: seq<string>, contents: seq<V>)
    requires |names| == |contents|
    ensures forall k :: k in Written(dir, names, contents) <==> k in dir || k in names
    ensures forall k :: k in names ==>
      LastIndexOf(names, k) >= 0 && Written(dir, names, contents)[k] == contents[LastIndexOf(names, k)]
    ensures forall k :: k in dir && k !in names ==> Written(dir, names, contents)[k] == dir[k]
    decreases |names|
  {
    if names != [] {
      var n := |names| - 1;
      WrittenHoldsLastWrite(dir, names[..n], contents[..n]);
      assert forall k :: k in names <==> k in names[..n] || k == names[n];
      forall k | k in names
        ensures LastIndexOf(names, k) >= 0 && Written(dir, names, contents)[k] == contents[LastIndexOf(names, k)]
      {
        if k != names[n] {
          assert LastIndexOf(names, k) == LastIndexOf(names[..n], k);
        }
      }
    }
  }

  /** The two upload directories. */
  class FileStore {
    /** `public/pdf`: raw uploads by stored name. */
    var raw: map<string, Content>
    /** `public/merged_pdf`: merged documents by name. */
    var merged: map<string, seq<Page>>

    constructor (raw: map<string, Content>, merged: map<string, seq<Page>>)
      ensures this.raw == raw && this.merged == merged
    {
      this.raw := raw;
      this.merged := merged;
    }

    /**
     * `fs.writeFileSync` into `public/merged_pdf`: creates or replaces the
     * file. A name with a `/` is taken to point into a sub-directory that
     * does not exist, so the write throws and nothing is written; the path
     * that `path.join` would normalise is not resolved here.
     */
    method WriteMerged(name: string, pages: seq<Page>) returns (ok: bool)
      modifies this
      ensures ok <==> PlainName(name)
      ensures merged == (if ok then old(merged)[name := pages] else old(merged)) && raw == old(raw)
    {
      if !PlainName(name) {
        return false;
      }
      merged := merged[name := pages];
      ok := true;
    }

    /** Multer's disk storage writing the uploads of one request, in order. */
    method WriteUploads(names: seq<string>, contents: seq<Content>)
      requires |names| == |contents|
      modifies this
      ensures raw == Written(old(raw), names, contents) && merged == old(merged)
    {
      var i := 0;
      while i < |names|
        invariant 0 <= i <= |names|
        invariant raw == Written(old(raw), names[..i], contents[..i]) && merged == old(merged)
      {
        assert names[..i + 1][..i] == names[..i] && contents[..i + 1][..i] == contents[..i];
        raw := raw[names[i] := contents[i]];
        i := i + 1;
      }
      assert names[..i] == names && contents[..i] == contents;
    }

    /** `existsSync` then `unlinkSync` in `public/merged_pdf`: a missing file is skipped. */
    method UnlinkMerged(name: string)
      modifies this
      ensures merged == old(merged) - {name} && raw == old(raw)
    {
      if name in merged {
        merged := merged - {name};
      }
    }

    /** The clean-up loop over a record's raw files: each one that exists is unlinked, a missing one is skipped. */
    method UnlinkRaw(names: seq<string>)
      modifies this
      ensures raw == Unlinked(old(raw), names) && merged == old(merged)
    {
      var i := 0;
      while i < |names|
        invariant 0 <= i <= |names|
        invariant raw == Unlinked(old(raw), names[..i]) && merged == old(merged)
      {
        assert names[..i + 1][..i] == names[..i];
        if names[i] in raw {
          raw := raw - {names[i]};
        } else {
          assert raw - {names[i]} == raw;
        }
        i := i + 1;
      }
      assert names[..i] == names;
    }
  }

  // ---------------------------------------------------------------------
  // The forms collection
  // ---------------------------------------------------------------------

  /** `s` without its element at `k`, the rest in order. */
  function RemoveAt<T>(s: seq<T>, k: nat): (r: seq<T>)
    requires k < |s|
    ensures |r| == |s| - 1
    ensures forall j :: 0 <= j < k ==> r[j] == s[j]
    ensures forall j :: k <= j < |r| ==> r[j] == s[j + 1]
  {
    s[..k] + s[k + 1..]
  }

  /** `findByIdAndDelete`: the deleted record, if one had the id, and the collection after. */
  function DeleteById(records: seq<FormRecord>, id: string): (Option<FormRecord>, seq<FormRecord>)
  {
    var k := IndexOfId(records, id);
    if k == -1 then (None, records) else (Some(records[k]), RemoveAt(records, k))
  }

  /**
   * With unique identifiers, deleting by id removes exactly the record with
   * that id: afterwards none has it, every other record stays, and the
   * identifiers remain unique. An unknown id changes nothing.
   */
  lemma DeleteByIdRemovesExactly(records: seq<FormRecord>, id: string)
    requires DistinctIds(records)
    ensures var (found, after) := DeleteById(records, id);
      && (found.None? <==> forall j :: 0 <= j < |records| ==> records[j].id != id)
      && (found.None? ==> after == records)
      && (found.Some? ==> found.value in records && found.value.id == id && |after| == |records| - 1)
      && (forall x :: x in after <==> x in records && x.id != id)
      && DistinctIds(after)
  {
    var k := IndexOfId(records, id);
    if k != -1 {
      var after := RemoveAt(records, k);
      forall x | x in records && x.id != id ensures x in after {
        var j :| 0 <= j < |records| && records[j] == x;
        if j < k { assert after[j] == x; } else { assert j > k; assert after[j - 1] == x; }
      }
    }
  }

  /**
   * A `findByIdAndUpdate` document. The fields `date`, `particulars`,
   * `mergedPdf` and `files` are `None` when the handler passes `undefined`,
   * which Mongoose (version 7 and later) drops from the update, so the
   * stored value stays; every
   * other field is always written (`None` there stores `null`).
   */
  datatype FormUpdate = FormUpdate(
    fyYear: Option<Nested>,
    month: Option<MonthRef>,
    headCat: Option<Nested>,
    subCat: Option<Nested>,
    date: Option<string>,
    receivedBy: Option<seq<EmployeeRef>>,
    particulars: Option<string>,
    departments: Option<Nested>,
    vehicles: Option<Nested>,
    bills: seq<Bill>,
    totalAmount: int,
    mergedPdf: Option<string>,
    files: Option<seq<string>>)

  function Keep<T>(update: Option<T>, stored: T): T
  {
    if update.Some? then update.value else stored
  }

  /** A stored record after an update document was applied to it. */
  function ApplyUpdate(r: FormRecord, u: FormUpdate): (s: FormRecord)
    ensures s.id == r.id && s.formType == r.formType
    ensures s.fyYear == u.fyYear && s.month == u.month && s.headCat == u.headCat && s.subCat == u.subCat
    ensures s.receivedBy == u.receivedBy && s.departments == u.departments && s.vehicles == u.vehicles
    ensures s.bills == u.bills && s.totalAmount == u.totalAmount
    ensures s.date == (if u.date.Some? then u.date else r.date)
    ensures s.particulars == (if u.particulars.Some? then u.particulars else r.particulars)
    ensures s.mergedPdf == (if u.mergedPdf.Some? then u.mergedPdf.value else r.mergedPdf)
    ensures s.files == (if u.files.Some? then u.files.value else r.files)
  {
    r.(fyYear := u.fyYear, month := u.month, headCat := u.headCat, subCat := u.subCat,
       date := if u.date.Some? then u.date else r.date,
       receivedBy := u.receivedBy,
       particulars := if u.particulars.Some? then u.particulars else r.particulars,
       departments := u.departments, vehicles := u.vehicles,
       bills := u.bills, totalAmount := u.totalAmount,
       mergedPdf := Keep(u.mergedPdf, r.mergedPdf), files := Keep(u.files, r.files))
  }

  /** `findByIdAndUpdate` with `new: true`: the updated record, if one had the id, and the collection after. */
  function UpdateById(records: seq<FormRecord>, id: string, u: FormUpdate): (Option<FormRecord>, seq<FormRecord>)
  {
    var k := IndexOfId(records, id);
    if k == -1 then (None, records)
    else
      var s := ApplyUpdate(records[k], u);
      (Some(s), records[k := s])
  }

  /** Updating keeps the identifiers, touches only the record with the id, and applying the same update twice is applying it once. */
  lemma UpdateByIdTouchesOnlyTarget(records: seq<FormRecord>, id: string, u: FormUpdate)
    requires DistinctIds(records)
    ensures var (found, after) := UpdateById(records, id, u);
      && |after| == |records| && DistinctIds(after)
      && (found.None? <==> forall j :: 0 <= j < |records| ==> records[j].id != id)
      && (forall j :: 0 <= j < |records| && records[j].id != id ==> after[j] == records[j])
      && (found.Some? ==> found.value.id == id && found.value in after)
      && UpdateById(after, id, u) == (found, after)
  {
    var k := IndexOfId(records, id);
    if k != -1 {
      var s := ApplyUpdate(records[k], u);
      var after := records[k := s];
      assert forall j :: 0 <= j < |after| ==> after[j].id == records[j].id;
      assert IndexOfId(after, id) == k;
      assert ApplyUpdate(s, u) == s;
      assert after[k := s] == after;
    }
  }

  /** The `forms` collection, in natural order. */
  class FormCollection {
    var records: seq<FormRecord>

    ghost predicate Valid()
      reads this
    {
      DistinctIds(records)
    }

    constructor ()
      ensures records == [] && Valid()
    {
      records := [];
    }

    /**
     * `Form.save()` of a new document whose generated identifier is new:
     * the schema's validation, then the insert. A bill without a number
     * fails validation and nothing is inserted.
     */
    method Insert(r: FormRecord) returns (ok: bool)
      requires Valid() && IndexOfId(records, r.id) == -1
      modifies this
      ensures ok <==> BillNumbersPresent(r.bills)
      ensures records == (if ok then old(records) + [r] else old(records)) && Valid()
    {
      if !BillNumbersPresent(r.bills) {
        return false;
      }
      records := records + [r];
      ok := true;
    }

    /** `findById`: a scan in natural order. */
    method FindById(id: string) returns (k: int)
      ensures k == IndexOfId(records, id)
    {
      k := 0;
      while k < |records|
        invariant 0 <= k <= |records|
        invariant forall j :: 0 <= j < k ==> records[j].id != id
      {
        if records[k].id == id {
          return;
        }
        k := k + 1;
      }
      k := -1;
    }

    method FindByIdAndDelete(id: string) returns (found: Option<FormRecord>)
      requires Valid()
      modifies this
      ensures (found, records) == DeleteById(old(records), id) && Valid()
    {
      var k := FindById(id);
      if k == -1 {
        found := None;
      } else {
        found := Some(records[k]);
        DeleteByIdRemovesExactly(records, id);
        records := RemoveAt(records, k);
      }
    }

    method FindByIdAndUpdate(id: string, u: FormUpdate) returns (found: Option<FormRecord>)
      requires Valid()
      modifies this
      ensures (found, records) == UpdateById(old(records), id, u) && Valid()
    {
      var k := FindById(id);
      if k == -1 {
        found := None;
      } else {
        UpdateByIdTouchesOnlyTarget(records, id, u);
        var s := ApplyUpdate(records[k], u);
        found := Some(s);
        records := records[k := s];
      }
    }
  }
}
