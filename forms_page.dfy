/** The admin contacts page: the loaded contact list, the search box, the
    set of ticked rows and the open details view, with the handlers that
    change them and the CSV export. The list is whatever the contacts
    endpoint returned; deletions reach the server through requests whose
    outcome is a parameter. */
module FormsPage {
  import opened Common
  import opened Tables

  // ------------------------------------------------------------ search

  /** The search keeps a contact when its lower-cased name or e-mail holds
      the lower-cased term, or its phone holds the term as typed. */
  predicate MatchesSearch(c: Contact, term: string): (r: bool)
    ensures term == "" ==> r
  {
    IncludesEmpty(c.phone);
    || Includes(Lower(c.name), Lower(term))
    || Includes(Lower(c.email), Lower(term))
    || Includes(c.phone, term)
  }

  /** `filteredContacts` */
  function FilteredContacts(contacts: seq<Contact>, term: string): (r: seq<Contact>)
    ensures forall c :: c in r <==> c in contacts && MatchesSearch(c, term)
    ensures term == "" ==> r == contacts
  {
    if term == "" then
      FilterAll(contacts, (c: Contact) => MatchesSearch(c, term));
      Filter(contacts, (c: Contact) => MatchesSearch(c, term))
    else
      Filter(contacts, (c: Contact) => MatchesSearch(c, term))
  }

  /** The search shows the contacts it keeps in the list's own order. */
  lemma FilteredKeepsOrder(contacts: seq<Contact>, term: string)
    ensures Subsequence(FilteredContacts(contacts, term), contacts)
  {
    FilterIsSubsequence(contacts, (c: Contact) => MatchesSearch(c, term));
  }

  // ------------------------------------------------------------ selection

  function Ids(contacts: seq<Contact>): (r: seq<int>)
    ensures |r| == |contacts|
    ensures forall i :: 0 <= i < |r| ==> r[i] == contacts[i].id
  {
    seq(|contacts|, i requires 0 <= i < |contacts| => contacts[i].id)
  }

  /** `toggleContactSelection`: a ticked id is removed (every copy of it),
      any other id is appended. */
  function Toggle(selected: seq<int>, id: int): (r: seq<int>)
    ensures id in r <==> id !in selected
    ensures forall x :: x != id ==> (x in r <==> x in selected)
  {
    if id in selected then Filter(selected, (x: int) => x != id) else selected + [id]
  }

  /** Ticking an unticked row and unticking it again gives back the very
      same selection. */
  lemma ToggleTwiceRestores(selected: seq<int>, id: int)
    requires id !in selected
    ensures Toggle(Toggle(selected, id), id) == selected
  {
    FilterAppend(selected, [id], (x: int) => x != id);
    FilterAll(selected, (x: int) => x != id);
    assert Filter([id], (x: int) => x != id) == [];
  }

  /** Unticking a ticked row and ticking it again moves it to the end: the
      same ids, each as often as before, when there were no repeats. */
  lemma UntoggleRetoggle(selected: seq<int>, id: int)
    requires NoDuplicates(selected) && id in selected
    ensures multiset(Toggle(Toggle(selected, id), id)) == multiset(selected)
  {
    var k :| 0 <= k < |selected| && selected[k] == id;
    OccursOnce(selected, k);
    var removed := Filter(selected, (x: int) => x != id);
    assert Toggle(selected, id) == removed;
    assert Toggle(removed, id) == removed + [id];
    forall x
      ensures multiset(removed + [id])[x] == multiset(selected)[x]
    {
      FilterCount(selected, (x: int) => x != id, x);
    }
  }

  /** In a sequence without repeats each element occurs once. */
  lemma OccursOnce(s: seq<int>, k: nat)
    requires NoDuplicates(s) && k < |s|
    ensures multiset(s)[s[k]] == 1
  {
    assert s == s[..k] + [s[k]] + s[k + 1..];
    assert s[k] !in s[..k] && s[k] !in s[k + 1..];
  }

  /** A selection without repeats keeps having none. */
  lemma ToggleKeepsNoDuplicates(selected: seq<int>, id: int)
    requires NoDuplicates(selected)
    ensures NoDuplicates(Toggle(selected, id))
  {
    var identity := (x: int) => x;
    assert KeysUnique(selected, identity);
    if id in selected {
      FilterKeepsKeysUnique(selected, (x: int) => x != id, identity);
    }
  }

  /** `toggleSelectAll`: equal lengths (only the lengths are compared)
      clear the selection, anything else ticks exactly the shown rows. */
  function SelectAll(selected: seq<int>, shown: seq<Contact>): (r: seq<int>)
    ensures |selected| == |shown| ==> r == []
    ensures |selected| != |shown| ==> |r| == |shown| && forall i :: 0 <= i < |r| ==> r[i] == shown[i].id
  {
    if |selected| == |shown| then [] else Ids(shown)
  }

  /** The header checkbox. */
  predicate AllChecked(selected: seq<int>, shown: seq<Contact>) {
    |selected| == |shown| && |shown| > 0
  }

  /** Clicking the header checkbox when it is unticked and rows are shown
      ticks it, and clicking it when ticked unticks it. */
  lemma SelectAllFlipsCheckbox(selected: seq<int>, shown: seq<Contact>)
    requires shown != []
    ensures AllChecked(SelectAll(selected, shown), shown) <==> !AllChecked(selected, shown)
  {}

  /** Select-all ticks no id twice when the shown contacts have distinct
      ids. */
  lemma SelectAllNoDuplicates(selected: seq<int>, shown: seq<Contact>)
    requires KeysUnique(shown, (c: Contact) => c.id)
    ensures NoDuplicates(SelectAll(selected, shown))
  {}

  // ------------------------------------------------------------ deletion

  /** The list after the server confirmed deleting one id. */
  function WithoutId(contacts: seq<Contact>, id: int): (r: seq<Contact>)
    ensures forall c :: c in r <==> c in contacts && c.id != id
  {
    Filter(contacts, (c: Contact) => c.id != id)
  }

  /** The list after a bulk delete. */
  function WithoutIds(contacts: seq<Contact>, ids: seq<int>): (r: seq<Contact>)
    ensures forall c :: c in r <==> c in contacts && c.id !in ids
  {
    Filter(contacts, (c: Contact) => c.id !in ids)
  }

  /** Both deletions keep the remaining contacts in their order. */
  lemma DeletionKeepsOrder(contacts: seq<Contact>, id: int, ids: seq<int>)
    ensures Subsequence(WithoutId(contacts, id), contacts)
    ensures Subsequence(WithoutIds(contacts, ids), contacts)
  {
    FilterIsSubsequence(contacts, (c: Contact) => c.id != id);
    FilterIsSubsequence(contacts, (c: Contact) => c.id !in ids);
  }

  // ------------------------------------------------------------ export

  const CsvHeader := ["Nombre", "Teléfono", "Email", "Código Postal", "Fecha"]

  /** One line of the export; the date is formatted by the browser's
      locale support, which is a parameter here. */
  function CsvRow(c: Contact, formatDate: int -> string): (r: seq<string>)
    ensures |r| == |CsvHeader|
  {
    [c.name, c.phone, c.email, c.postalCode, formatDate(c.createdAt)]
  }

  function CsvLines(shown: seq<Contact>, formatDate: int -> string): (r: seq<string>)
    ensures |r| == |shown| + 1
    ensures r[0] == Join(CsvHeader, ",")
    ensures forall i :: 0 <= i < |shown| ==> r[i + 1] == Join(CsvRow(shown[i], formatDate), ",")
  {
    [Join(CsvHeader, ",")] + seq(|shown|, i requires 0 <= i < |shown| => Join(CsvRow(shown[i], formatDate), ","))
  }

  /** `exportContacts`: fields joined with ',' and lines with a line feed,
      nothing quoted. */
  function Csv(shown: seq<Contact>, formatDate: int -> string): (r: string)
    ensures IsPrefix(Join(CsvHeader, ","), r)
  {
    JoinStartsWithFirst(CsvLines(shown, formatDate), "\n");
    Join(CsvLines(shown, formatDate), "\n")
  }

  /** No field of the line holds x. */
  predicate FieldsAvoid(c: Contact, formatDate: int -> string, x: char) {
    forall f :: f in CsvRow(c, formatDate) ==> x !in f
  }

  /** With no line feed inside a field, the file has the header line and
      one line per shown contact. */
  lemma CsvLineCount(shown: seq<Contact>, formatDate: int -> string)
    requires forall i :: 0 <= i < |shown| ==> FieldsAvoid(shown[i], formatDate, '\n')
    ensures Occurrences(Csv(shown, formatDate), '\n') == |shown|
  {
    CsvLinesAvoidLineFeed(shown, formatDate);
    JoinSeparatorCount(CsvLines(shown, formatDate), '\n');
  }

  /** With no line feed inside a field, no line holds one. */
  lemma CsvLinesAvoidLineFeed(shown: seq<Contact>, formatDate: int -> string)
    requires forall i :: 0 <= i < |shown| ==> FieldsAvoid(shown[i], formatDate, '\n')
    ensures forall i :: 0 <= i < |CsvLines(shown, formatDate)| ==> '\n' !in CsvLines(shown, formatDate)[i]
  {
    var lines := CsvLines(shown, formatDate);
    HeaderAvoidsLineFeed();
    forall i | 1 <= i < |lines|
      ensures '\n' !in lines[i]
    {
      RowAvoids(shown[i - 1], formatDate, '\n');
    }
  }

  lemma HeaderAvoidsLineFeed()
    ensures '\n' !in Join(CsvHeader, ",")
  {
    JoinAvoids(CsvHeader, ",", '\n');
  }

  /** A character no field holds, other than the comma, is not in the line. */
  lemma RowAvoids(c: Contact, formatDate: int -> string, x: char)
    requires x != ',' && FieldsAvoid(c, formatDate, x)
    ensures x !in Join(CsvRow(c, formatDate), ",")
  {
    var row := CsvRow(c, formatDate);
    forall j | 0 <= j < |row|
      ensures x !in row[j]
    {
      assert row[j] in row;
    }
    JoinAvoids(row, ",", x);
  }

  /** With no comma inside a field, every line has exactly five columns;
      a comma inside a field is not quoted and shifts the columns. */
  lemma CsvRowColumns(c: Contact, formatDate: int -> string)
    requires FieldsAvoid(c, formatDate, ',')
    ensures Occurrences(Join(CsvRow(c, formatDate), ","), ',') == 4
  {
    var row := CsvRow(c, formatDate);
    assert forall i :: 0 <= i < |row| ==> ',' !in row[i] by {
      forall i | 0 <= i < |row| ensures ',' !in row[i] {
        assert row[i] in row;
      }
    }
    JoinSeparatorCount(row, ',');
  }

  // ------------------------------------------------------------ page state

  class ContactsPage {
    var contacts: seq<Contact>
    var searchTerm: string
    var selected: seq<int>
    var showDetails: Option<int>

    /** The ticked ids never repeat, and the loaded rows have distinct ids
        (the table's primary key). */
    ghost predicate Valid()
      reads this
    {
      NoDuplicates(selected) && KeysUnique(contacts, (c: Contact) => c.id)
    }

    /** The initial state, before the list arrives. */
    constructor ()
      ensures contacts == [] && searchTerm == "" && selected == [] && showDetails == None
      ensures Valid()
    {
      contacts, searchTerm, selected, showDetails := [], "", [], None;
    }

    /** `setContacts(data.contacts || [])` when the request succeeded. */
    method Load(response: Option<seq<Contact>>)
      requires response.Some? ==> KeysUnique(response.value, (c: Contact) => c.id)
      requires Valid()
      modifies this
      ensures response.Some? ==> contacts == response.value
      ensures response.None? ==> contacts == old(contacts)
      ensures searchTerm == old(searchTerm) && selected == old(selected) && showDetails == old(showDetails)
      ensures Valid()
    {
      if response.Some? {
        contacts := response.value;
      }
    }

    function Shown(): seq<Contact>
      reads this
    {
      FilteredContacts(contacts, searchTerm)
    }

    method ToggleContactSelection(id: int)
      requires Valid()
      modifies this
      ensures selected == Toggle(old(selected), id)
      ensures contacts == old(contacts) && searchTerm == old(searchTerm) && showDetails == old(showDetails)
      ensures Valid()
    {
      ToggleKeepsNoDuplicates(selected, id);
      selected := Toggle(selected, id);
    }

    method ToggleSelectAll()
      requires Valid()
      modifies this
      ensures selected == SelectAll(old(selected), old(Shown()))
      ensures contacts == old(contacts) && searchTerm == old(searchTerm) && showDetails == old(showDetails)
      ensures Valid()
    {
      var shown, term := Shown(), searchTerm;
      FilterKeepsKeysUnique(contacts, (c: Contact) => MatchesSearch(c, term), (c: Contact) => c.id);
      SelectAllNoDuplicates(selected, shown);
      selected := SelectAll(selected, shown);
    }

    /** `deleteContact`: only a confirmed delete the server answered with
        success changes the list and closes the details view. The id stays
        in the selection if it was ticked. */
    method DeleteContact(id: int, confirmed: bool, responseOk: bool)
      requires Valid()
      modifies this
      ensures confirmed && responseOk ==> contacts == WithoutId(old(contacts), id) && showDetails == None
      ensures !(confirmed && responseOk) ==> contacts == old(contacts) && showDetails == old(showDetails)
      ensures searchTerm == old(searchTerm) && selected == old(selected)
      ensures Valid()
    {
      if !confirmed {
        return;
      }
      if responseOk {
        FilterKeepsKeysUnique(contacts, (c: Contact) => c.id != id, (c: Contact) => c.id);
        contacts := WithoutId(contacts, id);
        showDetails := None;
      }
    }

    /** `deleteSelected`: nothing without a selection or a confirmation;
        otherwise, once every request has settled, every ticked id leaves
        the list whatever each response said, and the selection empties.
        `settled` is false when a request failed outright, which leaves
        everything as it was. */
    method DeleteSelected(confirmed: bool, settled: bool)
      requires Valid()
      modifies this
      ensures old(selected) != [] && confirmed && settled ==>
        contacts == WithoutIds(old(contacts), old(selected)) && selected == []
      ensures !(old(selected) != [] && confirmed && settled) ==>
        contacts == old(contacts) && selected == old(selected)
      ensures searchTerm == old(searchTerm) && showDetails == old(showDetails)
      ensures Valid()
    {
      if |selected| == 0 {
        return;
      }
      if !confirmed {
        return;
      }
      if settled {
        var ids := selected;
        FilterKeepsKeysUnique(contacts, (c: Contact) => c.id !in ids, (c: Contact) => c.id);
        contacts := WithoutIds(contacts, ids);
        selected := [];
      }
    }

    function Export(formatDate: int -> string): string
      reads this
    {
      Csv(Shown(), formatDate)
    }
  }
}
