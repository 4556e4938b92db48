/** The CSV lead import: the uploaded text is cut into non-blank lines, the
    first names the columns, and every further line becomes one lead sent
    to the record store or one counted error. */
module ImportData {
  import opened Text
  import opened Seqs
  import opened LeadTypes
  import Leads

  /** The lead fields a CSV column can fill. */
  datatype Field = Name | Phone | Email | Category | Location | OwnerEmail | ContactPerson | Notes

  /** The record handed to the store: the fields found on the line, and the
      two statuses every imported lead starts with. */
  datatype NewLead = NewLead(fields: map<Field, string>, status: Status, callStatus: CallStatus)

  /** What one insert request came back with: stored, an error returned by
      the store, or an exception thrown while waiting for it. */
  datatype InsertOutcome = Inserted | Rejected | Threw

  /** The record store as the import sees it: its answer to the k-th insert
      request, which carries the given record. */
  type RecordStore = (nat, NewLead) -> InsertOutcome

  /** The file input after a change: no file chosen, a file whose text
      could not be read, or its text. */
  datatype Upload = NoFile | Unreadable | FileText(text: string)

  datatype ImportResult = ImportResult(success: nat, errors: nat, message: string)

  /** What an import shows and what it sent to the store, in order. */
  datatype ImportRun = ImportRun(result: Option<ImportResult>, submitted: seq<NewLead>)

  const EmptyFileMessage := "Plik jest pusty"
  const ReadErrorMessage := "Błąd podczas czytania pliku"

  function SummaryMessage(success: nat, errors: nat): string {
    "Zaimportowano " + NatToString(success) + " leadów. Błędów: " + NatToString(errors)
  }

  // ---------------------------------------------------------------- lines

  /** `line.trim()` is truthy. */
  function IsNonBlank(line: string): bool {
    Trim(line) != ""
  }

  /** `text.split('\n').filter(line => line.trim())`. */
  function NonBlankLines(text: string): (lines: seq<string>)
    ensures forall k :: 0 <= k < |lines| ==> !AllWhitespace(lines[k])
  {
    Select(Split(text, '\n'), IsNonBlank)
  }

  /** A blank first line is dropped before the header is chosen, so it
      never becomes the header row. */
  lemma LeadingBlankLineDropped(blank: string, rest: string)
    requires AllWhitespace(blank) && '\n' !in blank
    ensures NonBlankLines(blank + "\n" + rest) == NonBlankLines(rest)
  {
    SplitAfterPiece(blank, rest, '\n');
    var pieces := [blank] + Split(rest, '\n');
    assert pieces[0] == blank && pieces[1..] == Split(rest, '\n');
  }

  /** A text of whitespace only, the empty text included, has no line. */
  lemma BlankTextHasNoLines(text: string)
    requires AllWhitespace(text)
    ensures NonBlankLines(text) == []
  {
    var pieces := Split(text, '\n');
    SplitPiecesFromText(text, '\n');
    forall k | 0 <= k < |pieces| ensures !IsNonBlank(pieces[k]) {
      assert forall i :: 0 <= i < |pieces[k]| ==> pieces[k][i] in text;
    }
    SelectNoneKept(pieces, IsNonBlank);
  }

  // ---------------------------------------------------------------- cells

  /** `v.trim().replace(/"/g, '')`, applied to every header and value. */
  function Clean(cell: string): (r: string)
    ensures '"' !in r
  {
    RemoveQuotes(Trim(cell))
  }

  /** `line.split(',').map(...)`: a naive split, a comma inside quotes
      included. */
  function Cells(line: string): (cells: seq<string>)
    ensures |cells| == |Split(line, ',')|
    ensures forall k :: 0 <= k < |cells| ==> cells[k] == Clean(Split(line, ',')[k])
  {
    CleanAll(Split(line, ','))
  }

  function CleanAll(pieces: seq<string>): (cells: seq<string>)
    ensures |cells| == |pieces|
    ensures forall k :: 0 <= k < |pieces| ==> cells[k] == Clean(pieces[k])
  {
    if pieces == [] then [] else [Clean(pieces[0])] + CleanAll(pieces[1..])
  }

  /** Whitespace around a cell, the carriage return that ends a CRLF line
      included, is removed. */
  lemma CleanIgnoresPadding(a: string, cell: string, b: string)
    requires AllWhitespace(a) && AllWhitespace(b)
    ensures Clean(a + cell + b) == Clean(cell)
  {
    TrimIgnoresPadding(a, cell, b);
  }

  /** Trimming comes before quote removal, so whitespace inside quotes
      survives: `"  x "` in quotes gives `  x `. */
  lemma QuotedCellKeepsInnerWhitespace(inner: string)
    requires '"' !in inner
    ensures Clean("\"" + inner + "\"") == inner
  {
    var quoted := "\"" + inner + "\"";
    TrimIsCore(quoted, 0, |quoted|);
    assert quoted[0..|quoted|] == quoted;
    RemoveQuotesAppend("\"" + inner, "\"");
    RemoveQuotesAppend("\"", inner);
    RemoveQuotesKeepsUnquoted(inner);
  }

  /** The split ignores the quotes around `a,b`. */
  lemma QuotedCommaPieces()
    ensures Split("\"a,b\"", ',') == ["\"a", "b\""]
  {
    var left, right := "\"a", "b\"";
    assert "\"a,b\"" == left + [','] + right;
    SplitAfterPiece(left, right, ',');
    SplitWithoutSeparator(right, ',');
  }

  /** A quote at either end of a cell is deleted. */
  lemma HalfQuotedCells()
    ensures Clean("\"a") == "a" && Clean("b\"") == "b"
  {
    var left, right := "\"a", "b\"";
    TrimIsCore(left, 0, 2);
    assert left[0..2] == left;
    TrimIsCore(right, 0, 2);
    assert right[0..2] == right;
    RemoveQuotesAppend("\"", "a");
    RemoveQuotesAppend("b", "\"");
  }

  /** A comma between quotes still separates two cells. */
  lemma QuotedCommaSplits()
    ensures Cells("\"a,b\"") == ["a", "b"]
  {
    QuotedCommaPieces();
    HalfQuotedCells();
    var cells := Cells("\"a,b\"");
    assert |cells| == 2 && cells[0] == "a" && cells[1] == "b";
  }

  // ---------------------------------------------------------------- headers

  /** The cases of the header switch: each lower-case header the import
      recognises, and the field it fills. */
  const Synonyms: map<string, Field> := map[
    "nazwa" := Name, "name" := Name,
    "telefon" := Phone, "phone" := Phone,
    "email" := Email, "e-mail" := Email,
    "kategoria" := Category, "category" := Category,
    "lokalizacja" := Location, "location" := Location, "miasto" := Location,
    "wlasciciel" := OwnerEmail, "owner" := OwnerEmail, "owner_email" := OwnerEmail,
    "osoba kontaktowa" := ContactPerson, "contact_person" := ContactPerson,
    "notatki" := Notes, "notes" := Notes]

  /** `switch (header.toLowerCase())`; a header with no case fills nothing. */
  function FieldOf(header: string): Option<Field> {
    var h := Lower(header);
    if h in Synonyms then Some(Synonyms[h]) else None
  }

  /** Header matching ignores case, and padding around the header cell. */
  lemma HeaderMatchIgnoresCaseAndPadding(a: string, header: string, b: string)
    requires AllWhitespace(a) && AllWhitespace(b)
    ensures FieldOf(Clean(a + header + b)) == FieldOf(Lower(Clean(header)))
  {
    CleanIgnoresPadding(a, header, b);
    LowerIdempotent(Clean(header));
  }

  /** The lower-case header `nazwa` names the lead's name, and so does
      its capitalised spelling. */
  lemma NazwaNamesName()
    ensures FieldOf("nazwa") == Some(Name)
    ensures FieldOf("Nazwa") == Some(Name)
  {
    var upper, lower := Lower("Nazwa"), Lower("nazwa");
    assert upper[0] == 'n' && upper[1] == 'a' && upper[2] == 'z' && upper[3] == 'w' && upper[4] == 'a';
    assert lower[0] == 'n' && lower[1] == 'a' && lower[2] == 'z' && lower[3] == 'w' && lower[4] == 'a';
    assert upper == "nazwa" && lower == "nazwa";
  }

  /** The padding around a header cell is dropped before matching. */
  lemma PaddedNazwaCleaned()
    ensures Clean(" Nazwa ") == "Nazwa"
  {
    var cell := " Nazwa ";
    assert !IsWhitespace(cell[1]) && !IsWhitespace(cell[5]);
    TrimIsCore(cell, 1, 6);
    assert cell[1..6] == "Nazwa";
    assert '"' !in "Nazwa";
    RemoveQuotesKeepsUnquoted("Nazwa");
  }

  /** A padded, capitalised header cell names the lead's name. */
  lemma PaddedHeaderMatches()
    ensures FieldOf(Clean(" Nazwa ")) == Some(Name)
  {
    PaddedNazwaCleaned();
    NazwaNamesName();
  }

  // ---------------------------------------------------------------- one line

  /** Column `i` puts a value into `field`: it has a non-empty value and its
      header names `field`. */
  predicate Supplies(headers: seq<string>, values: seq<string>, i: nat, field: Field)
    requires i < |headers|
  {
    i < |values| && values[i] != "" && FieldOf(headers[i]) == Some(field)
  }

  /** The record after the header `forEach` has visited the first `n`
      columns: a value that is missing or empty is skipped. */
  function FieldsUpTo(headers: seq<string>, values: seq<string>, n: nat): (fields: map<Field, string>)
    requires n <= |headers|
    ensures forall f :: f in fields ==> fields[f] != ""
  {
    if n == 0 then map[]
    else
      var fields := FieldsUpTo(headers, values, n - 1);
      var i := n - 1;
      if i < |values| && values[i] != "" && FieldOf(headers[i]).Some? then
        fields[FieldOf(headers[i]).value := values[i]]
      else fields
  }

  /** The record built from one data line. */
  function RowFields(headers: seq<string>, values: seq<string>): map<Field, string> {
    FieldsUpTo(headers, values, |headers|)
  }

  lemma {:induction false} FieldFilledUpTo(headers: seq<string>, values: seq<string>, n: nat, field: Field)
    requires n <= |headers|
    ensures field in FieldsUpTo(headers, values, n) <==>
            exists i :: 0 <= i < n && Supplies(headers, values, i, field)
  {
    if n > 0 {
      FieldFilledUpTo(headers, values, n - 1, field);
      var before, after := FieldsUpTo(headers, values, n - 1), FieldsUpTo(headers, values, n);
      if Supplies(headers, values, n - 1, field) {
        assert after == before[field := values[n - 1]];
      } else {
        assert field in after <==> field in before;
        forall i | 0 <= i < n && Supplies(headers, values, i, field) ensures i < n - 1 {
        }
      }
    }
  }

  /** A field is present exactly when some column supplies it: unknown
      headers, columns past the values, and empty values fill nothing. */
  lemma FieldFilledIff(headers: seq<string>, values: seq<string>, field: Field)
    ensures field in RowFields(headers, values) <==>
            exists i :: 0 <= i < |headers| && Supplies(headers, values, i, field)
  {
    FieldFilledUpTo(headers, values, |headers|, field);
  }

  lemma {:induction false} LaterColumnWinsUpTo(headers: seq<string>, values: seq<string>, n: nat, i: nat, field: Field)
    requires i < n <= |headers|
    requires Supplies(headers, values, i, field)
    requires forall j :: i < j < n ==> !Supplies(headers, values, j, field)
    ensures field in FieldsUpTo(headers, values, n)
    ensures FieldsUpTo(headers, values, n)[field] == values[i]
  {
    if n - 1 > i {
      LaterColumnWinsUpTo(headers, values, n - 1, i, field);
      assert !Supplies(headers, values, n - 1, field);
    }
  }

  /** When several columns supply a field, the last of them wins. */
  lemma LaterColumnWins(headers: seq<string>, values: seq<string>, i: nat, field: Field)
    requires i < |headers| && Supplies(headers, values, i, field)
    requires forall j :: i < j < |headers| ==> !Supplies(headers, values, j, field)
    ensures field in RowFields(headers, values) && RowFields(headers, values)[field] == values[i]
  {
    LaterColumnWinsUpTo(headers, values, |headers|, i, field);
  }

  lemma {:induction false} UnknownColumnIgnoredUpTo(headers: seq<string>, values: seq<string>, n: nat, i: nat, x: string)
    requires n <= |headers| && i < |headers| && i < |values| && FieldOf(headers[i]) == None
    ensures FieldsUpTo(headers, values[i := x], n) == FieldsUpTo(headers, values, n)
  {
    if n > 0 {
      UnknownColumnIgnoredUpTo(headers, values, n - 1, i, x);
      assert n - 1 != i && n - 1 < |values| ==> values[i := x][n - 1] == values[n - 1];
    }
  }

  /** Whatever a column with an unrecognised header holds, the record is
      the same. */
  lemma UnknownColumnIgnored(headers: seq<string>, values: seq<string>, i: nat, x: string)
    requires i < |headers| && i < |values| && FieldOf(headers[i]) == None
    ensures RowFields(headers, values[i := x]) == RowFields(headers, values)
  {
    UnknownColumnIgnoredUpTo(headers, values, |headers|, i, x);
  }

  lemma {:induction false} ExtraValuesIgnoredUpTo(headers: seq<string>, values: seq<string>, extra: seq<string>, n: nat)
    requires n <= |headers| <= |values|
    ensures FieldsUpTo(headers, values + extra, n) == FieldsUpTo(headers, values, n)
  {
    if n > 0 {
      ExtraValuesIgnoredUpTo(headers, values, extra, n - 1);
      assert (values + extra)[n - 1] == values[n - 1];
    }
  }

  /** Values past the last header are ignored. */
  lemma ExtraValuesIgnored(headers: seq<string>, values: seq<string>, extra: seq<string>)
    requires |headers| <= |values|
    ensures RowFields(headers, values + extra) == RowFields(headers, values)
  {
    ExtraValuesIgnoredUpTo(headers, values, extra, |headers|);
  }

  /** What the store may receive: a non-empty name, no empty field, and
      the statuses `new` and `pending`. */
  predicate Submittable(lead: NewLead) {
    && Name in lead.fields
    && (forall f :: f in lead.fields ==> lead.fields[f] != "")
    && lead.status == New
    && lead.callStatus == Pending
  }

  /** The lead a data line yields, or `None` when it has no name. */
  function Draft(headers: seq<string>, line: string): (draft: Option<NewLead>)
    ensures draft.Some? ==> Submittable(draft.value)
    ensures draft.None? <==> Name !in RowFields(headers, Cells(line))
  {
    var fields := RowFields(headers, Cells(line));
    if Name in fields then Some(NewLead(fields, New, Pending)) else None
  }

  // ---------------------------------------------------------------- all lines

  /** The two counters and the records sent to the store so far. */
  datatype Tally = Tally(success: nat, errors: nat, submitted: seq<NewLead>)

  /** One turn of the loop over data lines. */
  function Step(t: Tally, headers: seq<string>, line: string, store: RecordStore): Tally {
    match Draft(headers, line)
    case None => t.(errors := t.errors + 1)
    case Some(lead) =>
      if store(|t.submitted|, lead) == Inserted then
        Tally(t.success + 1, t.errors, t.submitted + [lead])
      else
        Tally(t.success, t.errors + 1, t.submitted + [lead])
  }

  /** The tally after the data lines `lines`, taken in order. */
  function Process(headers: seq<string>, lines: seq<string>, store: RecordStore): Tally {
    if lines == [] then Tally(0, 0, [])
    else Step(Process(headers, lines[..|lines| - 1], store), headers, lines[|lines| - 1], store)
  }

  /** The leads the named lines yield, in order. */
  function Drafts(headers: seq<string>, lines: seq<string>): (leads: seq<NewLead>)
    ensures |leads| <= |lines|
    ensures forall k :: 0 <= k < |leads| ==> Submittable(leads[k])
  {
    if lines == [] then []
    else
      var earlier := Drafts(headers, lines[..|lines| - 1]);
      match Draft(headers, lines[|lines| - 1])
      case None => earlier
      case Some(lead) => earlier + [lead]
  }

  /** How many of the requests `leads` the store accepted. */
  function Accepted(store: RecordStore, leads: seq<NewLead>): (n: nat)
    ensures n <= |leads|
  {
    if leads == [] then 0
    else
      Accepted(store, leads[..|leads| - 1])
        + (if store(|leads| - 1, leads[|leads| - 1]) == Inserted then 1 else 0)
  }

  /** The tally in closed form: every line is counted once, exactly the
      named lines are sent to the store whatever it answers, and the
      successes are the requests it accepted. */
  lemma {:induction false} ProcessClosedForm(headers: seq<string>, lines: seq<string>, store: RecordStore)
    ensures var t := Process(headers, lines, store);
      && t.success + t.errors == |lines|
      && t.submitted == Drafts(headers, lines)
      && t.success == Accepted(store, t.submitted)
  {
    if lines != [] {
      var init := lines[..|lines| - 1];
      ProcessClosedForm(headers, init, store);
      var t := Process(headers, init, store);
      match Draft(headers, lines[|lines| - 1])
      case None =>
      case Some(lead) =>
        var sent := t.submitted + [lead];
        assert sent[..|sent| - 1] == t.submitted;
    }
  }

  /** A line without a name is one more error and reaches no insert. */
  lemma NamelessLineIsError(headers: seq<string>, lines: seq<string>, line: string, store: RecordStore)
    requires Draft(headers, line) == None
    ensures var before := Process(headers, lines, store);
      Process(headers, lines + [line], store) == before.(errors := before.errors + 1)
  {
    assert (lines + [line])[..|lines|] == lines;
  }

  /** An insert the store refuses, or that throws, is one more error, and
      the lines after it are processed as if it had not happened. */
  lemma FailedInsertIsError(headers: seq<string>, lines: seq<string>, line: string, store: RecordStore)
    requires Draft(headers, line).Some?
    requires store(|Process(headers, lines, store).submitted|, Draft(headers, line).value) != Inserted
    ensures var before := Process(headers, lines, store);
      Process(headers, lines + [line], store) ==
        Tally(before.success, before.errors + 1, before.submitted + [Draft(headers, line).value])
  {
    assert (lines + [line])[..|lines|] == lines;
  }

  // ---------------------------------------------------------------- upload

  /** `handleFileUpload` from the chosen file to the result banner. */
  function Import(upload: Upload, store: RecordStore): ImportRun {
    match upload
    case NoFile => ImportRun(None, [])
    case Unreadable => ImportRun(Some(ImportResult(0, 0, ReadErrorMessage)), [])
    case FileText(text) =>
      var lines := NonBlankLines(text);
      if lines == [] then ImportRun(Some(ImportResult(0, 0, EmptyFileMessage)), [])
      else
        var t := Process(Cells(lines[0]), lines[1..], store);
        ImportRun(Some(ImportResult(t.success, t.errors, SummaryMessage(t.success, t.errors))), t.submitted)
  }

  /** The tally after one more line is one more `Step`. */
  lemma ProcessOneMore(headers: seq<string>, lines: seq<string>, n: nat, store: RecordStore)
    requires n < |lines|
    ensures Process(headers, lines[..n + 1], store) ==
            Step(Process(headers, lines[..n], store), headers, lines[n], store)
  {
    assert lines[..n + 1][..n] == lines[..n];
  }

  /** The header `forEach`: fills a fresh record column by column. */
  method BuildRecord(headers: seq<string>, values: seq<string>) returns (leadData: map<Field, string>)
    ensures leadData == RowFields(headers, values)
  {
    leadData := map[];
    for i := 0 to |headers|
      invariant leadData == FieldsUpTo(headers, values, i)
    {
      if i < |values| && values[i] != "" {
        var field := FieldOf(headers[i]);
        if field.Some? {
          leadData := leadData[field.value := values[i]];
        }
      }
    }
  }

  /** One turn of the loop, spelled out for the record the line yields. */
  lemma StepCases(t: Tally, headers: seq<string>, line: string, store: RecordStore, leadData: map<Field, string>)
    requires leadData == RowFields(headers, Cells(line))
    ensures Name !in leadData ==> Step(t, headers, line, store) == t.(errors := t.errors + 1)
    ensures Name in leadData ==>
      var lead := NewLead(leadData, New, Pending);
      Step(t, headers, line, store) ==
        if store(|t.submitted|, lead) == Inserted then Tally(t.success + 1, t.errors, t.submitted + [lead])
        else Tally(t.success, t.errors + 1, t.submitted + [lead])
  {
  }

  /** The loop over the data lines: builds each line's record, counts a
      nameless line as an error, and otherwise sends the record to the
      store and counts its answer. */
  method ImportLines(headers: seq<string>, data: seq<string>, store: RecordStore)
    returns (successCount: nat, errorCount: nat, submitted: seq<NewLead>)
    ensures Tally(successCount, errorCount, submitted) == Process(headers, data, store)
    ensures forall k :: 0 <= k < |submitted| ==> Submittable(submitted[k])
  {
    successCount, errorCount := 0, 0;
    submitted := [];
    for n := 0 to |data|
      invariant Tally(successCount, errorCount, submitted) == Process(headers, data[..n], store)
      invariant forall k :: 0 <= k < |submitted| ==> Submittable(submitted[k])
    {
      ProcessOneMore(headers, data, n, store);
      var leadData := BuildRecord(headers, Cells(data[n]));
      StepCases(Tally(successCount, errorCount, submitted), headers, data[n], store, leadData);
      if Name !in leadData {
        errorCount := errorCount + 1;
        continue;
      }
      var lead := NewLead(leadData, New, Pending);
      var outcome := store(|submitted|, lead);
      submitted := submitted + [lead];
      if outcome == Inserted {
        successCount := successCount + 1;
      } else {
        errorCount := errorCount + 1;
      }
    }
    assert data[..|data|] == data;
  }

  /** `handleFileUpload`: reads the lines, takes the first as the header
      row and imports the rest; a missing file, a read error and a file
      without a non-blank line end early. */
  method HandleFileUpload(upload: Upload, store: RecordStore)
    returns (result: Option<ImportResult>, submitted: seq<NewLead>)
    ensures ImportRun(result, submitted) == Import(upload, store)
    ensures forall k :: 0 <= k < |submitted| ==> Submittable(submitted[k])
  {
    if upload == NoFile {
      return None, [];
    }
    if upload == Unreadable {
      return Some(ImportResult(0, 0, ReadErrorMessage)), [];
    }
    var lines := NonBlankLines(upload.text);
    if |lines| == 0 {
      return Some(ImportResult(0, 0, EmptyFileMessage)), [];
    }
    var successCount, errorCount;
    successCount, errorCount, submitted := ImportLines(Cells(lines[0]), lines[1..], store);
    result := Some(ImportResult(successCount, errorCount, SummaryMessage(successCount, errorCount)));
  }

  /** An import of a readable file: with no non-blank line it reports an
      empty file and sends nothing; otherwise every line after the header is
      counted once, as a success or an error, and the store is sent exactly
      the named lines' records, whatever it answers. */
  lemma ImportAccounting(text: string, store: RecordStore)
    ensures var run := Import(FileText(text), store);
      var lines := NonBlankLines(text);
      && run.result.Some?
      && (lines == [] ==> run == ImportRun(Some(ImportResult(0, 0, EmptyFileMessage)), []))
      && (lines != [] ==>
            && run.result.value.success + run.result.value.errors == |lines| - 1
            && run.submitted == Drafts(Cells(lines[0]), lines[1..])
            && run.result.value.success == Accepted(store, run.submitted))
  {
    var lines := NonBlankLines(text);
    if lines != [] {
      ProcessClosedForm(Cells(lines[0]), lines[1..], store);
    }
  }

  /** An empty or blank file reports `Plik jest pusty` and sends nothing. */
  lemma BlankFileIsEmpty(text: string, store: RecordStore)
    requires AllWhitespace(text)
    ensures Import(FileText(text), store) == ImportRun(Some(ImportResult(0, 0, EmptyFileMessage)), [])
  {
    BlankTextHasNoLines(text);
  }

  /** What is sent to the store never depends on the store's answers: a
      failed insert does not stop the lines after it. */
  lemma SubmissionsIndependentOfStore(upload: Upload, store1: RecordStore, store2: RecordStore)
    ensures Import(upload, store1).submitted == Import(upload, store2).submitted
  {
    if upload.FileText? {
      ImportAccounting(upload.text, store1);
      ImportAccounting(upload.text, store2);
    }
  }

  // ---------------------------------------------------------------- to the leads page

  function Lookup(fields: map<Field, string>, field: Field): Option<string> {
    if field in fields then Some(fields[field]) else None
  }

  /** The lead the store holds once it has accepted `lead` and given it an
      id and timestamps. */
  function Stored(lead: NewLead, id: string, createdAt: string, updatedAt: string): Lead
    requires Name in lead.fields
  {
    Lead(id, lead.fields[Name], Lookup(lead.fields, Phone), Lookup(lead.fields, Email),
         Lookup(lead.fields, Category), Lookup(lead.fields, Location),
         Lookup(lead.fields, OwnerEmail), lead.status, Some(lead.callStatus),
         Lookup(lead.fields, ContactPerson), Lookup(lead.fields, Notes), createdAt, updatedAt)
  }

  /** Every imported lead lands in the "new" bucket of the leads page,
      wears the pending badge, and is found by searching for its name. */
  lemma ImportedLeadIsNew(lead: NewLead, id: string, createdAt: string, updatedAt: string)
    requires Submittable(lead)
    ensures var stored := Stored(lead, id, createdAt, updatedAt);
      && Leads.InBucket(stored, Leads.NewLeads)
      && Leads.StatusBadge(stored) == Leads.BadgeFor(Pending)
      && Leads.MatchesSearch(stored, lead.fields[Name])
  {
    ContainsSelf(Lower(lead.fields[Name]));
  }
}
