/**
 * The three routes that change a form submission: `/postform` creates one,
 * `/modify` updates one and `/erase/:id` deletes one with its files. Each
 * route is a specification function giving its reply and the new state, and
 * a method that performs the steps in the handler's order on the file store
 * and the collection and is proved to produce exactly that outcome.
 *
 * Multer runs before both upload routes: `ReceiveUploads` writes the files of
 * the request into `public/pdf` and hands the handler their stored names.
 */
module Forms {
  import opened Wrappers
  import opened Strings
  import opened Records
  import opened Submission
  import opened Merge
  import opened Storage

  // ---------------------------------------------------------------------
  // Request fields
  // ---------------------------------------------------------------------

  /**
   * What `JSON.parse` makes of a request field: it throws on text that is
   * not JSON (an absent field included), or yields `null`, or a value.
   */
  datatype Field<+T> = Malformed | Null | Value(value: T)

  /** The stored value of a parsed field: `null` unless it parsed to a value (`safeJsonParse` also maps a throw to `null`). */
  function Stored<T>(f: Field<T>): (v: Option<T>)
    ensures v.None? <==> !f.Value?
    ensures v.Some? ==> v.value == f.value
  {
    if f.Value? then Some(f.value) else None
  }

  /** A file as the client sent it. */
  datatype Upload = Upload(originalName: string, content: Content)

  /** The `maxCount` of `upload.array('files', 10)`. */
  const MaxUploads: nat := 10

  /** The names multer stores the uploads under, one `Date.now()` reading per file. */
  function StoredNames(stamps: seq<nat>, uploads: seq<Upload>): (names: seq<string>)
    requires |stamps| == |uploads|
    ensures |names| == |uploads|
    ensures forall i :: 0 <= i < |uploads| ==> names[i] == UploadName(stamps[i], uploads[i].originalName)
  {
    seq(|uploads|, i requires 0 <= i < |uploads| => UploadName(stamps[i], uploads[i].originalName))
  }

  function Contents(uploads: seq<Upload>): (cs: seq<Content>)
    ensures |cs| == |uploads|
    ensures forall i :: 0 <= i < |uploads| ==> cs[i] == uploads[i].content
  {
    seq(|uploads|, i requires 0 <= i < |uploads| => uploads[i].content)
  }

  /** The files the merge loop reads back from `public/pdf`; one that is not there reads as unusable. */
  function StoredFiles(raw: map<string, Content>, names: seq<string>): (files: seq<StoredFile>)
    ensures |files| == |names|
    ensures forall i :: 0 <= i < |names| ==>
      files[i] == StoredFile(names[i], if names[i] in raw then raw[names[i]] else Unreadable)
  {
    seq(|names|, i requires 0 <= i < |names| =>
      StoredFile(names[i], if names[i] in raw then raw[names[i]] else Unreadable))
  }

  /**
   * Multer's disk storage on `/postform` and `/modify`: more than ten files
   * fail the request (multer removes what it had written); otherwise each
   * file is written under `<stamp>-<original name>`, in order, and the handler
   * gets the names in upload order.
   */
  method ReceiveUploads(store: FileStore, stamps: seq<nat>, uploads: seq<Upload>) returns (r: Reply<seq<string>>)
    requires |stamps| == |uploads|
    modifies store
    ensures |uploads| > MaxUploads ==> r == Failure(ServerError500) && store.raw == old(store.raw)
    ensures |uploads| <= MaxUploads ==>
      && r == Success(StoredNames(stamps, uploads))
      && store.raw == Written(old(store.raw), r.value, Contents(uploads))
    ensures store.merged == old(store.merged)
  {
    if |uploads| > MaxUploads {
      return Failure(ServerError500);
    }
    var names := StoredNames(stamps, uploads);
    store.WriteUploads(names, Contents(uploads));
    r := Success(names);
  }

  // ---------------------------------------------------------------------
  // POST /postform
  // ---------------------------------------------------------------------

  datatype CreatePayload = CreatePayload(
    fyYear: Field<Nested>,
    month: Field<MonthRef>,
    headCat: Field<Nested>,
    formType: Field<Nested>,
    subCat: Field<Nested>,
    date: Option<string>,
    receivedBy: Field<seq<EmployeeRef>>,
    particulars: Option<string>,
    departments: Field<Nested>,
    vehicles: Field<Nested>,
    bills: Field<seq<Bill>>)

  /** Every `JSON.parse` of the create route succeeds, and `bills` is a list that `reduce` can fold. */
  predicate CreateParses(p: CreatePayload)
  {
    && !p.fyYear.Malformed? && !p.month.Malformed? && !p.headCat.Malformed?
    && !p.formType.Malformed? && !p.subCat.Malformed? && !p.receivedBy.Malformed?
    && !p.departments.Malformed? && !p.vehicles.Malformed? && p.bills.Value?
  }

  /**
   * The document `new form({...})` saves. Its `merged_pdf` is the
   * `path.basename` of the written path, which is the merged name itself
   * once the write into `public/merged_pdf` succeeded.
   */
  function NewRecord(p: CreatePayload, id: string, names: seq<string>, r: nat): FormRecord
    requires p.bills.Value?
  {
    var bills := p.bills.value;
    FormRecord(id, Stored(p.fyYear), Stored(p.month), Stored(p.headCat), Stored(p.formType),
      Stored(p.subCat), p.date, Stored(p.receivedBy), p.particulars, Stored(p.departments),
      Stored(p.vehicles), bills, names, MergedName(bills, DateText(p.date), r), TotalAmount(bills))
  }

  /** What `/postform` leaves behind: its reply and the merged PDF it wrote, if any. */
  datatype CreateEffect = CreateEffect(reply: Reply<FormRecord>, written: Option<(string, seq<Page>)>)

  /**
   * The outcome of `/postform`. `uploaded` is `None` when the request was
   * not multipart, so `req.files` is undefined. The merged PDF is written
   * before the record is validated, so a bill without a number fails the
   * request (500) after the file is on disk.
   */
  function PostFormOutcome(raw: map<string, Content>, p: CreatePayload, uploaded: Option<seq<string>>, id: string, r: nat)
    : CreateEffect
  {
    if uploaded.None? || !CreateParses(p) then CreateEffect(Failure(ServerError500), None)
    else
      var name := MergedName(p.bills.value, DateText(p.date), r);
      match Merged(Create, Classify(StoredFiles(raw, uploaded.value)))
      case None => CreateEffect(Failure(ServerError500), None)
      case Some(pages) =>
        if !PlainName(name) then CreateEffect(Failure(ServerError500), None)
        else if !BillNumbersPresent(p.bills.value) then CreateEffect(Failure(ServerError500), Some((name, pages)))
        else CreateEffect(Success(NewRecord(p, id, uploaded.value, r)), Some((name, pages)))
  }

  /** Every `.pdf` upload of the request is a PDF that loads. */
  predicate PdfsLoad(raw: map<string, Content>, names: seq<string>)
  {
    forall i :: 0 <= i < |names| ==>
      var f := StoredFiles(raw, names)[i];
      KindOf(f.name) == Pdf ==> f.content.PdfData?
  }

  /**
   * `/postform` writes the merged PDF exactly when the request is
   * multipart, every field is JSON, `bills` is a list, every `.pdf` upload
   * loads (a broken image only loses its page), and neither a bill number
   * nor the date holds a `/`; it then succeeds exactly when every bill has
   * a number, and otherwise fails with 500. The written document has one
   * page per embeddable image plus every page of every PDF; the saved record
   * holds the stored names in upload order, the bills, their total and the
   * written name.
   */
  lemma PostFormOutcomeFacts(raw: map<string, Content>, p: CreatePayload, uploaded: Option<seq<string>>, id: string, r: nat)
    ensures var out := PostFormOutcome(raw, p, uploaded, id, r);
      && (out.reply.Failure? ==> out.reply.status == ServerError500)
      && (out.written.Some? <==>
            && uploaded.Some? && CreateParses(p) && PdfsLoad(raw, uploaded.value)
            && (forall i :: 0 <= i < |p.bills.value| ==> '/' !in p.bills.value[i].billNo)
            && '/' !in DateText(p.date))
      && (out.reply.Success? <==> out.written.Some? && BillNumbersPresent(p.bills.value))
      && (out.written.Some? ==>
            var items := Classify(StoredFiles(raw, uploaded.value));
            && out.written.value.0 == MergedName(p.bills.value, DateText(p.date), r)
            && |out.written.value.1| == ImagePageCount(items) + PdfPageTotal(items))
      && (out.reply.Success? ==>
            var record := out.reply.value;
            && record.id == id
            && record.files == uploaded.value
            && record.bills == p.bills.value
            && record.totalAmount == SumOfAmounts(p.bills.value)
            && record.mergedPdf == out.written.value.0)
  {
    if uploaded.Some? && CreateParses(p) {
      var files := StoredFiles(raw, uploaded.value);
      var items := Classify(files);
      MergedSucceeds(Create, items);
      MergedNamePlain(p.bills.value, DateText(p.date), r);
      if Merged(Create, items).Some? {
        MergedPageCount(Create, items);
      }
    }
  }

  /**
   * The `/postform` handler after multer: parse the fields, name the merged
   * PDF, merge the uploads in order (the create route), write the merged PDF
   * and save the record under the identifier MongoDB generated.
   */
  method PostForm(store: FileStore, forms: FormCollection, p: CreatePayload, uploaded: Option<seq<string>>,
                  id: string, u: real) returns (reply: Reply<FormRecord>)
    requires forms.Valid() && IndexOfId(forms.records, id) == -1 && 0.0 <= u < 1.0
    modifies store, forms
    ensures forms.Valid() && store.raw == old(store.raw)
    ensures var out := PostFormOutcome(old(store.raw), p, uploaded, id, RandomSuffix(u));
      && reply == out.reply
      && forms.records == (if reply.Success? then old(forms.records) + [reply.value] else old(forms.records))
      && store.merged == (if out.written.Some? then old(store.merged)[out.written.value.0 := out.written.value.1]
                          else old(store.merged))
  {
    if uploaded.None? || !CreateParses(p) {
      return Failure(ServerError500);
    }
    var names := uploaded.value;
    var bills := p.bills.value;
    var mergedName := MergedName(bills, DateText(p.date), RandomSuffix(u));
    var doc := new OutputDocument();
    var ok := MergeUploads(doc, Create, StoredFiles(store.raw, names));
    if !ok {
      return Failure(ServerError500);
    }
    assert doc.pages == Merged(Create, Classify(StoredFiles(old(store.raw), names))).value;
    var written := store.WriteMerged(mergedName, doc.pages);
    if !written {
      return Failure(ServerError500);
    }
    var record := NewRecord(p, id, names, RandomSuffix(u));
    var saved := forms.Insert(record);
    if !saved {
      return Failure(ServerError500);
    }
    reply := Success(record);
  }

  // ---------------------------------------------------------------------
  // PUT /modify
  // ---------------------------------------------------------------------

  /** The body of a `/modify` request; `type` is not read by the handler. */
  datatype ModifyPayload = ModifyPayload(
    id: Option<string>,
    fyYear: Field<Nested>,
    month: Field<MonthRef>,
    headCat: Field<Nested>,
    subCat: Field<Nested>,
    date: Option<string>,
    receivedBy: Field<seq<EmployeeRef>>,
    particulars: Option<string>,
    departments: Field<Nested>,
    vehicles: Field<Nested>,
    bills: Field<seq<Bill>>)

  /** The calendar day of `new Date()` in UTC, which `toISOString` prints. */
  datatype Day = Day(year: nat, month: nat, day: nat)

  predicate ValidDay(d: Day)
  {
    d.year <= 9999 && 1 <= d.month <= 12 && 1 <= d.day <= 31
  }

  /** `!_id`: an absent or empty identifier. */
  predicate MissingId(p: ModifyPayload)
  {
    p.id.None? || p.id.value == ""
  }

  /** The update document `/modify` builds; `mergedName` and `uploaded` stay `undefined` when `None`. */
  function ModifyUpdate(p: ModifyPayload, bills: seq<Bill>, mergedName: Option<string>, uploaded: Option<seq<string>>)
    : FormUpdate
  {
    FormUpdate(Stored(p.fyYear), Stored(p.month), Stored(p.headCat), Stored(p.subCat), p.date,
      Stored(p.receivedBy), p.particulars, Stored(p.departments), Stored(p.vehicles),
      bills, TotalAmount(bills), mergedName, uploaded)
  }

  /** What `/modify` leaves behind: its reply, the merged PDF it wrote if any, and the collection. */
  datatype ModifyEffect = ModifyEffect(reply: Reply<FormRecord>, written: Option<(string, seq<Page>)>, records: seq<FormRecord>)

  function ApplyModify(records: seq<FormRecord>, id: string, u: FormUpdate, written: Option<(string, seq<Page>)>)
    : ModifyEffect
  {
    var (found, after) := UpdateById(records, id, u);
    if found.None? then ModifyEffect(Failure(NotFound404), written, records)
    else ModifyEffect(Success(found.value), written, after)
  }

  /**
   * The outcome of `/modify`. A missing `_id` is rejected before anything
   * else; `bills` that did not parse to a list fail the request at `map` or
   * `reduce`; uploads are merged on the modify route, where any failure
   * fails the request, as does a merged name with a `/`, which cannot be
   * written; and the merged PDF is written before the record is looked up,
   * so it stays even when the reply is 404.
   */
  function ModifyOutcome(raw: map<string, Content>, records: seq<FormRecord>, p: ModifyPayload,
                         uploaded: Option<seq<string>>, today: Day, r: nat): ModifyEffect
    requires ValidDay(today)
  {
    if MissingId(p) then ModifyEffect(Failure(BadRequest400), None, records)
    else if !p.bills.Value? then ModifyEffect(Failure(ServerError500), None, records)
    else
      var bills := p.bills.value;
      if HasFiles(uploaded) then
        var name := ModifyName(p, today, r);
        match Merged(Modify, Classify(StoredFiles(raw, uploaded.value)))
        case None => ModifyEffect(Failure(ServerError500), None, records)
        case Some(pages) =>
          if !PlainName(name) then ModifyEffect(Failure(ServerError500), None, records)
          else ApplyModify(records, p.id.value, ModifyUpdate(p, bills, Some(name), uploaded), Some((name, pages)))
      else ApplyModify(records, p.id.value, ModifyUpdate(p, bills, None, uploaded), None)
  }

  /** The request carried at least one file. */
  predicate HasFiles(uploaded: Option<seq<string>>)
  {
    uploaded.Some? && |uploaded.value| > 0
  }

  /** The name `/modify` gives the merged PDF: the request's date, or today's when it is absent or empty. */
  function ModifyName(p: ModifyPayload, today: Day, r: nat): string
    requires p.bills.Value? && ValidDay(today)
  {
    MergedName(p.bills.value, ModifyDateText(p.date, today.year, today.month, today.day), r)
  }

  /**
   * `/modify` answers 400 exactly for a missing `_id`, and then changes
   * nothing. It answers 500, changing nothing, exactly when `bills` is not
   * a list, or the request has files and one of them does not merge on the
   * modify route or the merged name holds a `/`. It writes the merged PDF,
   * named after the bills and the date (today's when none was sent), exactly
   * for a request with files that all merge. It answers 404 exactly when no
   * record has the id, leaving the collection as it was. Otherwise it
   * rewrites that record alone: the same identifier and `type`, every parsed
   * field as parsed (`null` when it did not parse), the new bills and their
   * total, the date and particulars kept when none was sent, the written
   * merged name when one was written, and the file list replaced whenever
   * the request was multipart.
   */
  lemma ModifyOutcomeFacts(raw: map<string, Content>, records: seq<FormRecord>, p: ModifyPayload,
                           uploaded: Option<seq<string>>, today: Day, r: nat)
    requires ValidDay(today) && DistinctIds(records)
    ensures var e := ModifyOutcome(raw, records, p, uploaded, today, r);
      && (e.reply == Failure(BadRequest400) <==> MissingId(p))
      && (e.reply == Failure(ServerError500) <==>
            !MissingId(p)
            && (!p.bills.Value?
                || (HasFiles(uploaded)
                    && ((exists i :: 0 <= i < |uploaded.value| &&
                           !Acceptable(Modify, Classify(StoredFiles(raw, uploaded.value))[i]))
                        || !PlainName(ModifyName(p, today, r))))))
      && (e.reply.Failure? && e.reply.status != NotFound404 ==> e.written.None? && e.records == records)
      && (e.written.Some? <==> HasFiles(uploaded) && (e.reply.Success? || e.reply == Failure(NotFound404)))
      && (e.written.Some? ==>
            var items := Classify(StoredFiles(raw, uploaded.value));
            && p.bills.Value?
            && e.written.value.0 == ModifyName(p, today, r)
            && |e.written.value.1| == ImagePageCount(items) + PdfPageTotal(items))
      && (e.reply == Failure(NotFound404) <==>
            !MissingId(p) && p.bills.Value?
            && (e.written.Some? || !HasFiles(uploaded))
            && forall j :: 0 <= j < |records| ==> records[j].id != p.id.value)
      && (e.reply == Failure(NotFound404) ==> e.records == records)
      && (e.reply.Success? ==>
            var k := IndexOfId(records, p.id.value);
            var s := e.reply.value;
            && !MissingId(p) && p.bills.Value? && 0 <= k
            && e.records == records[k := s]
            && s.id == p.id.value && s.formType == records[k].formType
            && s.fyYear == Stored(p.fyYear) && s.month == Stored(p.month)
            && s.headCat == Stored(p.headCat) && s.subCat == Stored(p.subCat)
            && s.receivedBy == Stored(p.receivedBy)
            && s.departments == Stored(p.departments) && s.vehicles == Stored(p.vehicles)
            && s.bills == p.bills.value && s.totalAmount == SumOfAmounts(p.bills.value)
            && s.date == (if p.date.Some? then p.date else records[k].date)
            && s.particulars == (if p.particulars.Some? then p.particulars else records[k].particulars)
            && s.mergedPdf == (if e.written.Some? then e.written.value.0 else records[k].mergedPdf)
            && s.files == (if uploaded.Some? then uploaded.value else records[k].files))
  {
    if !MissingId(p) && p.bills.Value? {
      var bills := p.bills.value;
      var id := p.id.value;
      if HasFiles(uploaded) {
        var name := ModifyName(p, today, r);
        var items := Classify(StoredFiles(raw, uploaded.value));
        MergedSucceeds(Modify, items);
        if Merged(Modify, items).Some? {
          MergedPageCount(Modify, items);
          if PlainName(name) {
            UpdateByIdTouchesOnlyTarget(records, id, ModifyUpdate(p, bills, Some(name), uploaded));
          }
        }
      } else {
        UpdateByIdTouchesOnlyTarget(records, id, ModifyUpdate(p, bills, None, uploaded));
      }
    }
  }

  /**
   * The `/modify` handler after multer, step by step: parse leniently,
   * reject a missing `_id`, merge and write the uploads when there are any,
   * total the bills, then `findByIdAndUpdate`.
   */
  method ModifyForm(store: FileStore, forms: FormCollection, p: ModifyPayload, uploaded: Option<seq<string>>,
                    today: Day, u: real) returns (reply: Reply<FormRecord>)
    requires forms.Valid() && ValidDay(today) && 0.0 <= u < 1.0
    modifies store, forms
    ensures forms.Valid() && store.raw == old(store.raw)
    ensures var e := ModifyOutcome(old(store.raw), old(forms.records), p, uploaded, today, RandomSuffix(u));
      && reply == e.reply && forms.records == e.records
      && store.merged == (if e.written.Some? then old(store.merged)[e.written.value.0 := e.written.value.1]
                          else old(store.merged))
  {
    if MissingId(p) {
      return Failure(BadRequest400);
    }
    if !p.bills.Value? {
      return Failure(ServerError500);
    }
    var bills := p.bills.value;
    var mergedName: Option<string> := None;
    if HasFiles(uploaded) {
      var name := ModifyName(p, today, RandomSuffix(u));
      var doc := new OutputDocument();
      var ok := MergeUploads(doc, Modify, StoredFiles(store.raw, uploaded.value));
      if !ok {
        return Failure(ServerError500);
      }
      assert doc.pages == Merged(Modify, Classify(StoredFiles(old(store.raw), uploaded.value))).value;
      var written := store.WriteMerged(name, doc.pages);
      if !written {
        return Failure(ServerError500);
      }
      mergedName := Some(name);
    }
    var found := forms.FindByIdAndUpdate(p.id.value, ModifyUpdate(p, bills, mergedName, uploaded));
    if found.None? {
      return Failure(NotFound404);
    }
    reply := Success(found.value);
  }

  // ---------------------------------------------------------------------
  // DELETE /erase/:id
  // ---------------------------------------------------------------------

  datatype EraseEffect = EraseEffect(
    reply: Reply<FormRecord>, records: seq<FormRecord>, raw: map<string, Content>, merged: map<string, seq<Page>>)

  /**
   * The outcome of `/erase/:id`: 404 with nothing changed when no record has
   * the id; otherwise the record is removed, then its merged PDF (when it
   * names one) and each of its raw files, each only if it is still there.
   */
  function EraseOutcome(records: seq<FormRecord>, raw: map<string, Content>, merged: map<string, seq<Page>>, id: string)
    : EraseEffect
  {
    var (found, after) := DeleteById(records, id);
    if found.None? then EraseEffect(Failure(NotFound404), records, raw, merged)
    else
      var r := found.value;
      EraseEffect(Success(r), after, Unlinked(raw, r.files),
        if r.mergedPdf != "" then merged - {r.mergedPdf} else merged)
  }

  /**
   * After a successful erase no record has the id and every other record is
   * kept; the record's merged PDF and raw files are gone, whether or not they
   * were still there; every other file is untouched.
   */
  lemma EraseRemovesRecordAndFiles(records: seq<FormRecord>, raw: map<string, Content>,
                                   merged: map<string, seq<Page>>, id: string)
    requires DistinctIds(records)
    ensures var e := EraseOutcome(records, raw, merged, id);
      && (e.reply.Failure? <==> forall j :: 0 <= j < |records| ==> records[j].id != id)
      && (e.reply.Failure? ==> e.reply.status == NotFound404 && e.records == records && e.raw == raw && e.merged == merged)
      && (e.reply.Success? ==>
            var r := e.reply.value;
            && r in records && r.id == id && DistinctIds(e.records)
            && (forall x :: x in e.records <==> x in records && x.id != id)
            && (r.mergedPdf != "" ==> r.mergedPdf !in e.merged)
            && (forall n :: n in r.files ==> n !in e.raw)
            && (forall n :: n in raw && n !in r.files ==> n in e.raw && e.raw[n] == raw[n])
            && (forall n :: n in merged && n != r.mergedPdf ==> n in e.merged && e.merged[n] == merged[n]))
  {
    DeleteByIdRemovesExactly(records, id);
    var (found, after) := DeleteById(records, id);
    if found.Some? {
      UnlinkedRemovesExactly(raw, found.value.files);
    }
  }

  /** The `/erase/:id` handler: delete the record, then clean up its files best-effort. */
  method Erase(store: FileStore, forms: FormCollection, id: string) returns (reply: Reply<FormRecord>)
    requires forms.Valid()
    modifies store, forms
    ensures forms.Valid()
    ensures var e := EraseOutcome(old(forms.records), old(store.raw), old(store.merged), id);
      reply == e.reply && forms.records == e.records && store.raw == e.raw && store.merged == e.merged
  {
    var found := forms.FindByIdAndDelete(id);
    if found.None? {
      return Failure(NotFound404);
    }
    var data := found.value;
    if data.mergedPdf != "" {
      store.UnlinkMerged(data.mergedPdf);
    }
    store.UnlinkRaw(data.files);
    reply := Success(data);
  }
}
