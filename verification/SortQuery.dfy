/** `app/services/finding_query.py`: the sort state of the findings table as a
    query parameter. */
module SortQuery {
  import opened Ordering
  import opened Text

  datatype SortKey = SortKey(key: string, desc: bool)

  const SORTABLE := {"risk", "severity", "status", "title", "principal", "category", "check", "last_seen", "first_seen"}

  const DEFAULT_SORT := [SortKey("risk", true), SortKey("severity", true)]

  predicate IsSign(c: char) {
    c == '+' || c == '-'
  }

  /** `token.lstrip("+-")`. */
  function StripSigns(s: string): string {
    if s == "" || !IsSign(s[0]) then s else StripSigns(s[1..])
  }

  /** What one part of the parameter contributes, for the given sortable columns. */
  function ParseToken(columns: set<string>, part: string): Option<SortKey> {
    var token := Strip(part);
    if token == "" then None
    else if StripSigns(token) in columns then Some(SortKey(StripSigns(token), token[0] == '-'))
    else None
  }

  function ParseTokens(columns: set<string>, parts: seq<string>): seq<SortKey> {
    if parts == [] then []
    else
      var n := |parts| - 1;
      var earlier := ParseTokens(columns, parts[..n]);
      var last := ParseToken(columns, parts[n]);
      if last.Some? then earlier + [last.value] else earlier
  }

  function ParseSort(raw: Option<string>): seq<SortKey> {
    if raw.None? || raw.value == "" then DEFAULT_SORT
    else
      var keys := ParseTokens(SORTABLE, Split(raw.value, ','));
      if keys == [] then DEFAULT_SORT else keys
  }

  /** `parse_sort`. */
  method Parse(raw: Option<string>) returns (sort: seq<SortKey>)
    ensures sort == ParseSort(raw)
  {
    if raw.None? || raw.value == "" {
      return DEFAULT_SORT;
    }
    var parts := Split(raw.value, ',');
    sort := [];
    for i := 0 to |parts|
      invariant sort == ParseTokens(SORTABLE, parts[..i])
    {
      assert parts[..i + 1][..i] == parts[..i];
      var token := Strip(parts[i]);
      if token != "" {
        var desc := token[0] == '-';
        var name := StripSigns(token);
        if name in SORTABLE {
          sort := sort + [SortKey(name, desc)];
        }
      }
    }
    assert parts[..|parts|] == parts;
    if sort == [] {
      sort := DEFAULT_SORT;
    }
  }

  function Render(k: SortKey): string {
    if k.desc then "-" + k.key else k.key
  }

  function RenderAll(sort: seq<SortKey>): seq<string> {
    if sort == [] then [] else RenderAll(sort[..|sort| - 1]) + [Render(sort[|sort| - 1])]
  }

  /** `sort_to_query`. */
  function ToQuery(sort: seq<SortKey>): string {
    Join(RenderAll(sort), ',')
  }

  // ----- round trips -----

  /** Text that survives splitting, stripping and the removal of signs. */
  predicate IsPlain(s: string) {
    s != "" && ',' !in s && !IsSign(s[0]) && !IsSpace(s[0]) && !IsSpace(s[|s| - 1])
  }

  ghost predicate ArePlain(columns: set<string>) {
    forall key :: key in columns ==> IsPlain(key)
  }

  lemma SortableArePlain()
    ensures ArePlain(SORTABLE)
  {
  }

  predicate AreIn(columns: set<string>, sort: seq<SortKey>) {
    sort == [] || (AreIn(columns, sort[..|sort| - 1]) && sort[|sort| - 1].key in columns)
  }

  predicate AreSortable(sort: seq<SortKey>) {
    AreIn(SORTABLE, sort)
  }

  predicate IsToken(s: string) {
    ',' !in s && s != ""
  }

  predicate AreTokens(parts: seq<string>) {
    parts == [] || (AreTokens(parts[..|parts| - 1]) && IsToken(parts[|parts| - 1]))
  }

  lemma {:induction false} TokensEach(parts: seq<string>)
    requires AreTokens(parts)
    ensures forall t :: t in parts ==> IsToken(t)
  {
    if parts != [] {
      TokensEach(parts[..|parts| - 1]);
    }
  }

  /** The printed key is one token and parses back to the key. */
  lemma ParseRendered(columns: set<string>, k: SortKey)
    requires ArePlain(columns) && k.key in columns
    ensures IsToken(Render(k)) && ParseToken(columns, Render(k)) == Some(k)
  {
    var token := Render(k);
    assert IsPlain(k.key);
    StripIdentity(token);
    if k.desc {
      assert token[0] == '-' && token[1..] == k.key;
      assert StripSigns(token) == StripSigns(k.key);
    }
  }

  lemma AppendToken(columns: set<string>, parts: seq<string>, last: string, sort: seq<SortKey>, k: SortKey)
    requires ParseTokens(columns, parts) == sort && ParseToken(columns, last) == Some(k)
    requires AreTokens(parts) && IsToken(last)
    ensures ParseTokens(columns, parts + [last]) == sort + [k] && AreTokens(parts + [last])
  {
    assert (parts + [last])[..|parts|] == parts;
  }

  lemma {:induction false} RenderAllTokens(columns: set<string>, sort: seq<SortKey>)
    requires ArePlain(columns) && AreIn(columns, sort)
    ensures |RenderAll(sort)| == |sort|
    ensures ParseTokens(columns, RenderAll(sort)) == sort && AreTokens(RenderAll(sort))
  {
    if sort != [] {
      var front, last := sort[..|sort| - 1], sort[|sort| - 1];
      RenderAllTokens(columns, front);
      ParseRendered(columns, last);
      AppendToken(columns, RenderAll(front), Render(last), front, last);
      assert sort == front + [last];
    }
  }

  lemma JoinIsNotEmpty(parts: seq<string>)
    requires parts != [] && parts[0] != ""
    ensures Join(parts, ',') != ""
  {
  }

  /** Printing and parsing gives back every nonempty list of sortable keys. */
  lemma ParseUndoesPrint(sort: seq<SortKey>)
    requires sort != [] && AreSortable(sort)
    ensures ParseSort(Some(ToQuery(sort))) == sort
  {
    SortableArePlain();
    RenderAllTokens(SORTABLE, sort);
    SplitRendered(SORTABLE, sort);
  }

  lemma SplitRendered(columns: set<string>, sort: seq<SortKey>)
    requires sort != [] && ArePlain(columns) && AreIn(columns, sort)
    ensures ToQuery(sort) != "" && Split(ToQuery(sort), ',') == RenderAll(sort)
  {
    RenderAllTokens(columns, sort);
    TokensEach(RenderAll(sort));
    SplitJoin(RenderAll(sort), ',');
    assert RenderAll(sort)[0] in RenderAll(sort);
    JoinIsNotEmpty(RenderAll(sort));
  }

  lemma {:induction false} ParsedAreIn(columns: set<string>, parts: seq<string>)
    ensures AreIn(columns, ParseTokens(columns, parts))
  {
    if parts != [] {
      ParsedAreIn(columns, parts[..|parts| - 1]);
    }
  }

  lemma DefaultIsSortable()
    ensures AreSortable(DEFAULT_SORT)
  {
  }

  /** Every input parses to a nonempty list of sortable keys, and printing and
      parsing that again changes nothing. */
  lemma ParsePrintParse(raw: Option<string>)
    ensures ParseSort(raw) != [] && AreSortable(ParseSort(raw))
    ensures ParseSort(Some(ToQuery(ParseSort(raw)))) == ParseSort(raw)
  {
    DefaultIsSortable();
    if raw.Some? {
      ParsedAreIn(SORTABLE, Split(raw.value, ','));
    }
    ParseUndoesPrint(ParseSort(raw));
  }

  // ----- what is read -----

  /** The sortable columns. */
  lemma ColumnsExactly(name: string)
    ensures name in SORTABLE <==>
      || name == "risk" || name == "severity" || name == "status" || name == "title" || name == "principal"
      || name == "category" || name == "check" || name == "last_seen" || name == "first_seen"
  {
  }

  /** A minus sorts a column downwards, a plus or no sign upwards; any other
      column is left out. */
  lemma SignsExactly(columns: set<string>, name: string)
    requires IsPlain(name)
    ensures ParseToken(columns, name) == if name in columns then Some(SortKey(name, false)) else None
    ensures ParseToken(columns, "+" + name) == if name in columns then Some(SortKey(name, false)) else None
    ensures ParseToken(columns, "-" + name) == if name in columns then Some(SortKey(name, true)) else None
  {
    StripIdentity(name);
    SignedExactly(columns, name, '+');
    SignedExactly(columns, name, '-');
  }

  lemma SignedExactly(columns: set<string>, name: string, sign: char)
    requires IsPlain(name) && (sign == '+' || sign == '-')
    ensures ParseToken(columns, [sign] + name) == if name in columns then Some(SortKey(name, sign == '-')) else None
  {
    var token := [sign] + name;
    StripIdentity(token);
    assert token[1..] == name;
    assert StripSigns(token) == StripSigns(name);
  }

  /** Without a usable column the table is sorted by risk and then severity, both
      downwards. */
  lemma DefaultExactly(raw: Option<string>)
    requires raw.None? || forall part :: part in Split(raw.value, ',') ==> ParseToken(SORTABLE, part) == None
    ensures ParseSort(raw) == [SortKey("risk", true), SortKey("severity", true)]
  {
    if raw.Some? {
      NothingParsed(SORTABLE, Split(raw.value, ','));
    }
  }

  lemma {:induction false} NothingParsed(columns: set<string>, parts: seq<string>)
    requires forall part :: part in parts ==> ParseToken(columns, part) == None
    ensures ParseTokens(columns, parts) == []
  {
    if parts != [] {
      assert parts[|parts| - 1] in parts && forall part :: part in parts[..|parts| - 1] ==> part in parts;
      NothingParsed(columns, parts[..|parts| - 1]);
    }
  }
}
