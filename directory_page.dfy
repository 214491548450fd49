/**
 * The directory page: phone-number normalisation for `tel:` links, the
 * sidebar's category search, and the page state the sidebar updates.
 */
module DirectoryPage {
  import opened Wrappers
  import opened Text

  datatype Entry = Entry(name: string, phone: Option<string>, phone2: Option<string>, note: Option<string>)

  datatype Category = Category(name: string, entries: seq<Entry>)

  // ---------------------------------------------------------------------------
  // formatPhone
  // ---------------------------------------------------------------------------

  /** `raw.replace(/\s+/g, "")`: every whitespace character removed, the rest kept in order. */
  function StripWhitespace(s: string): (r: string)
    ensures NoWhitespace(r)
    ensures IsSubsequence(r, s)
  {
    if s == [] then []
    else if IsWhitespace(s[0]) then StripWhitespace(s[1..])
    else [s[0]] + StripWhitespace(s[1..])
  }

  /** Stripping distributes over concatenation, so it is fixed by what it does to one character. */
  lemma {:induction false} StripWhitespaceAppend(a: string, b: string)
    ensures StripWhitespace(a + b) == StripWhitespace(a) + StripWhitespace(b)
  {
    if a == [] {
      assert a + b == b;
    } else {
      assert (a + b)[0] == a[0] && (a + b)[1..] == a[1..] + b;
      StripWhitespaceAppend(a[1..], b);
      if !IsWhitespace(a[0]) {
        assert [a[0]] + (StripWhitespace(a[1..]) + StripWhitespace(b))
            == ([a[0]] + StripWhitespace(a[1..])) + StripWhitespace(b);
      }
    }
  }

  /** One character alone: whitespace disappears, anything else stays. */
  lemma StripWhitespaceChar(c: char)
    ensures StripWhitespace([c]) == if IsWhitespace(c) then [] else [c]
  {
    assert [c][1..] == [];
  }

  /** A string without whitespace is left as it is. */
  lemma {:induction false} StripWhitespaceNone(s: string)
    requires NoWhitespace(s)
    ensures StripWhitespace(s) == s
  {
    if s != [] {
      StripWhitespaceNone(s[1..]);
    }
  }

  /** `cleaned.replace(/^0/, "")`: one leading zero removed, if there is one. */
  function DropLeadingZero(s: string): (r: string)
    ensures s != [] && s[0] == '0' ==> r == s[1..]
    ensures !(s != [] && s[0] == '0') ==> r == s
  {
    if s != [] && s[0] == '0' then s[1..] else s
  }

  /** `formatPhone`: the dialable form of a directory phone number. */
  function FormatPhone(raw: string): (r: string)
    ensures |r| >= 1 && r[0] == '+'
    ensures NoWhitespace(r)
    ensures var cleaned := StripWhitespace(raw);
            if cleaned != [] && cleaned[0] == '+' then r == cleaned
            else r == "+91" + DropLeadingZero(cleaned)
  {
    var cleaned := StripWhitespace(raw);
    if cleaned != [] && cleaned[0] == '+' then cleaned
    else
      var r := "+91" + DropLeadingZero(cleaned);
      assert forall i :: 3 <= i < |r| ==> r[i] == DropLeadingZero(cleaned)[i - 3];
      r
  }

  /** A formatted number is formatted already. */
  lemma FormatPhoneIdempotent(raw: string)
    ensures FormatPhone(FormatPhone(raw)) == FormatPhone(raw)
  {
    StripWhitespaceNone(FormatPhone(raw));
  }

  lemma FormatPhoneExamples()
    ensures FormatPhone("00123") == "+910123"
    ensures FormatPhone("") == "+91"
    ensures FormatPhone("+1") == "+1"
  {
    StripWhitespaceNone("00123");
    StripWhitespaceNone("+1");
  }

  lemma FormatPhoneSpacedExample()
    ensures FormatPhone(" 0 8") == "+918"
  {
    assert " 0 8" == " " + "0" + " " + "8";
    StripWhitespaceAppend(" " + "0" + " ", "8");
    StripWhitespaceAppend(" " + "0", " ");
    StripWhitespaceAppend(" ", "0");
  }

  // ---------------------------------------------------------------------------
  // Category search
  // ---------------------------------------------------------------------------

  /** The sidebar test: the lower-cased name contains the lower-cased search text. */
  predicate Matches(c: Category, search: string)
    ensures search == "" ==> Matches(c, search)
    ensures Matches(c, search) ==> |search| <= |c.name|
  {
    ContainsEmpty(Lower(c.name));
    Contains(Lower(c.name), Lower(search))
  }

  /** `a` can be obtained from `b` by deleting elements, keeping the order of the rest. */
  predicate IsSubsequence<T(==)>(a: seq<T>, b: seq<T>)
  {
    a == [] || (b != [] && ((a[0] == b[0] && IsSubsequence(a[1..], b[1..])) || IsSubsequence(a, b[1..])))
  }

  /** `directory.filter(...)`: the categories the sidebar lists for a search text. */
  function Filtered(dir: seq<Category>, search: string): (r: seq<Category>)
    ensures IsSubsequence(r, dir)
    ensures forall c :: c in r <==> c in dir && Matches(c, search)
  {
    if dir == [] then []
    else if Matches(dir[0], search) then [dir[0]] + Filtered(dir[1..], search)
    else Filtered(dir[1..], search)
  }

  /** Filtering distributes over concatenation: each category is judged on its own, in place. */
  lemma {:induction false} FilteredAppend(a: seq<Category>, b: seq<Category>, search: string)
    ensures Filtered(a + b, search) == Filtered(a, search) + Filtered(b, search)
  {
    if a == [] {
      assert a + b == b;
    } else {
      assert (a + b)[0] == a[0] && (a + b)[1..] == a[1..] + b;
      FilteredAppend(a[1..], b, search);
      if Matches(a[0], search) {
        assert [a[0]] + (Filtered(a[1..], search) + Filtered(b, search))
            == ([a[0]] + Filtered(a[1..], search)) + Filtered(b, search);
      }
    }
  }

  /** An empty search lists the whole directory. */
  lemma {:induction false} FilteredEmptySearch(dir: seq<Category>)
    ensures Filtered(dir, "") == dir
  {
    if dir != [] {
      ContainsEmpty(Lower(dir[0].name));
      FilteredEmptySearch(dir[1..]);
    }
  }

  // ---------------------------------------------------------------------------
  // Page state
  // ---------------------------------------------------------------------------

  /** The two `useState` cells of the page. */
  datatype PageState = PageState(selected: Category, search: string)

  /** First render: the first category is selected and the search box is empty. */
  function Initial(dir: seq<Category>): (st: PageState)
    requires |dir| > 0
    ensures st.selected == dir[0] && st.search == ""
  {
    PageState(dir[0], "")
  }

  /** The search box's `onChange`: the text changes and the selection stays. */
  function Typed(st: PageState, text: string): (r: PageState)
    ensures r.selected == st.selected && r.search == text
  {
    st.(search := text)
  }

  /** A click on a category button: that category becomes the selection and the search is cleared. */
  function Select(st: PageState, c: Category): (r: PageState)
    ensures r.selected == c && r.search == ""
  {
    PageState(c, "")
  }

  /**
   * After a click on any listed category the sidebar lists the whole directory
   * again, the clicked category among them, and shows it as selected.
   */
  lemma SelectListsAll(dir: seq<Category>, st: PageState, c: Category)
    requires c in Filtered(dir, st.search)
    ensures Filtered(dir, Select(st, c).search) == dir
    ensures c in Filtered(dir, Select(st, c).search) && Select(st, c).selected == c
  {
    FilteredEmptySearch(dir);
  }
}
