/**
 * The stored documents of the expense-voucher backend, shaped after the
 * Mongoose schemas: form submissions with their bills, the fiscal-year
 * documents with their embedded month list, the standalone month
 * documents, and the sign-in credentials.
 */
module Records {
  import opened Wrappers

  /**
   * A bill line item: a required `bill_no` string and a required numeric
   * `amount`. A bill sent without `bill_no` has `billNo == ""` here, which is
   * also how `join` prints the missing number.
   */
  datatype Bill = Bill(billNo: string, amount: int)

  /** The schema's `required` check on `bills.bill_no`: an empty or missing number fails it. */
  predicate BillNumbersPresent(bills: seq<Bill>)
  {
    forall i :: 0 <= i < |bills| ==> bills[i].billNo != ""
  }

  /** The month object a client attaches to a form (`month_name` and its active flag). */
  datatype MonthRef = MonthRef(monthName: string, monthId: bool)

  /** An employee object in a form's `received_by` list. */
  datatype EmployeeRef = EmployeeRef(empId: string, empName: string)

  /**
   * A nested object the backend only stores and returns (fiscal year, head
   * and sub category, type, departments, vehicles), carried as its JSON text.
   */
  type Nested = string

  /**
   * A stored form submission. A field holding `None` is `null` in the
   * document (a nested value that parsed to `null`, or failed to parse on
   * modification); `date` and `particulars` are `None` when the request did
   * not carry them.
   */
  datatype FormRecord = FormRecord(
    id: string,
    fyYear: Option<Nested>,
    month: Option<MonthRef>,
    headCat: Option<Nested>,
    formType: Option<Nested>,
    subCat: Option<Nested>,
    date: Option<string>,
    receivedBy: Option<seq<EmployeeRef>>,
    particulars: Option<string>,
    departments: Option<Nested>,
    vehicles: Option<Nested>,
    bills: seq<Bill>,
    files: seq<string>,
    mergedPdf: string,
    totalAmount: int)

  /** An entry of a fiscal year's embedded `months` list: active (`true`) or locked (`false`). */
  datatype MonthEntry = MonthEntry(monthName: string, monthId: bool)

  /**
   * A fiscal-year document. `fyId` is `None` when the document was created
   * by a month toggle and never had its own flag set.
   */
  datatype FyYear = FyYear(fyName: string, fyId: Option<bool>, months: seq<MonthEntry>)

  /** A document of the standalone month collection. */
  datatype Month = Month(monthName: string, monthId: bool)

  /** A sign-in credential, stored and compared as plain text. */
  datatype Credential = Credential(username: string, password: string, admin: bool)

  /** Form records are addressed by their generated identifier, which is unique. */
  ghost predicate DistinctIds(records: seq<FormRecord>)
  {
    forall i, j :: 0 <= i < j < |records| ==> records[i].id != records[j].id
  }

  /** Position of the record with identifier `id`, or -1 (Mongoose's `findById`). */
  function IndexOfId(records: seq<FormRecord>, id: string): (k: int)
    ensures -1 <= k < |records|
    ensures k >= 0 ==> records[k].id == id && forall j :: 0 <= j < k ==> records[j].id != id
    ensures k == -1 <==> forall j :: 0 <= j < |records| ==> records[j].id != id
    decreases |records|
  {
    if records == [] then -1
    else if records[0].id == id then 0
    else
      var k := IndexOfId(records[1..], id);
      if k == -1 then -1 else k + 1
  }

  /** Position of the first fiscal year named `name`, or -1: the document `findOne({fy_name})` finds. */
  function FyIndex(years: seq<FyYear>, name: string): (k: int)
    ensures -1 <= k < |years|
    ensures k >= 0 ==> years[k].fyName == name && forall j :: 0 <= j < k ==> years[j].fyName != name
    ensures k == -1 <==> forall j :: 0 <= j < |years| ==> years[j].fyName != name
    decreases |years|
  {
    if years == [] then -1
    else if years[0].fyName == name then 0
    else
      var k := FyIndex(years[1..], name);
      if k == -1 then -1 else k + 1
  }
}
