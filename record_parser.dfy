/**
 * The record parser of `display_product`: the text block of the first
 * retrieved document becomes a map from field name to field value. Lines are
 * split on "\n"; blank lines are dropped; a line without the delimiter ": "
 * is skipped; any other line is cut at its FIRST ": ", the key is stripped of
 * whitespace and then of every leading U+FEFF, the value is stripped of
 * whitespace, and the pair is stored, a later key overwriting an earlier one.
 * Values stay text. The search for ": " is the one behind Python's
 * `": " in line` and `line.split(": ", 1)`.
 */
module RecordParser {
  import opened Text

  type Record = map<string, string>

  const Delimiter: string := ": "

  /** The delimiter ": " starts at index `j` of `s`. */
  predicate DelimiterAt(s: string, j: int)
  {
    0 <= j && j + 1 < |s| && s[j] == ':' && s[j + 1] == ' '
  }

  /** Python's `": " in s`: some suffix of `s` starts with ": ". */
  predicate ContainsDelimiter(s: string)
    ensures ContainsDelimiter(s) <==> exists j :: 0 <= j <= |s| && Delimiter <= s[j..]
  {
    DelimiterAtSuffix(s);
    exists j | 0 <= j < |s| :: DelimiterAt(s, j)
  }

  lemma DelimiterAtSuffix(s: string)
    ensures (exists j | 0 <= j < |s| :: DelimiterAt(s, j)) <==> exists j :: 0 <= j <= |s| && Delimiter <= s[j..]
  {
    forall j | 0 <= j <= |s| ensures DelimiterAt(s, j) <==> Delimiter <= s[j..] {
      if j + 1 < |s| {
        assert s[j..][..2] == [s[j], s[j + 1]];
      }
    }
  }

  /** The first occurrence of ": " in `s` at index `from` or later. */
  function FindDelimiterFrom(s: string, from: nat): (r: Option<nat>)
    ensures r.Some? ==> from <= r.value && DelimiterAt(s, r.value)
    ensures r.Some? ==> forall j :: from <= j < r.value ==> !DelimiterAt(s, j)
    ensures r.None? ==> forall j :: from <= j ==> !DelimiterAt(s, j)
    decreases |s| - from
  {
    if from + 1 >= |s| then None
    else if DelimiterAt(s, from) then Some(from)
    else FindDelimiterFrom(s, from + 1)
  }

  /** The index at which `s.split(": ", 1)` cuts `s`. */
  function FindDelimiter(s: string): (r: Option<nat>)
    ensures r.Some? <==> ContainsDelimiter(s)
    ensures r.Some? ==> DelimiterAt(s, r.value) && forall j :: 0 <= j < r.value ==> !DelimiterAt(s, j)
  {
    FindDelimiterFrom(s, 0)
  }

  /** `key.strip().lstrip("\ufeff")`. */
  function CleanKey(key: string): (k: string)
    ensures var s := Strip(key);
            && |k| <= |s| && k == s[|s| - |k|..]
            && (forall i :: 0 <= i < |s| - |k| ==> s[i] == Bom)
    ensures k == [] || (k[0] != Bom && !IsWhitespace(k[|k| - 1]))
  {
    LStripChar(Strip(key), Bom)
  }

  /** What one kept line contributes: nothing when it holds no ": ",
      otherwise the cleaned key and the stripped value around its first ": ". */
  function ParseLine(line: string): (r: Option<(string, string)>)
    ensures r.None? <==> !ContainsDelimiter(line)
    ensures r.Some? ==> r.value.0 == [] || r.value.0[0] != Bom
  {
    match FindDelimiter(line)
    case None => None
    case Some(i) => Some((CleanKey(line[..i]), Strip(line[i + 2..])))
  }

  /** What a line contributes: `Some((key, value))` or nothing. */
  type Entry = Option<(string, string)>

  /** `entry` stores a value under `key`. */
  predicate Sets(entry: Entry, key: string)
  {
    entry.Some? && entry.value.0 == key
  }

  /** `line` is a delimited line whose cleaned key is `key`. */
  predicate Defines(line: string, key: string)
  {
    Sets(ParseLine(line), key)
  }

  /** `product[key] = value` for a delimited line; nothing otherwise. */
  function Store(product: Record, entry: Entry): (stored: Record)
  {
    if entry.None? then product else product[entry.value.0 := entry.value.1]
  }

  /** The record built by storing the entries one after the other into an empty map. */
  function StoreAll(entries: seq<Entry>): (product: Record)
  {
    if |entries| == 0 then map[]
    else Store(StoreAll(entries[..|entries| - 1]), entries[|entries| - 1])
  }

  /** The entry of each line, in order. */
  function Entries(lines: seq<string>): (entries: seq<Entry>)
    ensures |entries| == |lines|
  {
    seq(|lines|, i requires 0 <= i < |lines| => ParseLine(lines[i]))
  }

  /** Python's `if line.strip()` fails on this line: it is whitespace throughout. */
  predicate IsBlank(line: string)
    ensures IsBlank(line) <==> forall i :: 0 <= i < |line| ==> IsWhitespace(line[i])
  {
    StripEmpty(line);
    Strip(line) == []
  }

  /** The comprehension of line 61: the lines of the split that are not blank, in order. */
  function NonBlankLines(lines: seq<string>): (kept: seq<string>)
    ensures |kept| <= |lines|
    ensures forall line :: line in kept <==> line in lines && !IsBlank(line)
  {
    if |lines| == 0 then []
    else
      var init := NonBlankLines(lines[..|lines| - 1]);
      var last := lines[|lines| - 1];
      LastSplitOff(lines);
      if IsBlank(last) then init else init + [last]
  }

  /** Filtering a join of two line lists filters each in turn. With the
      one-line case of the definition, this makes `NonBlankLines` exactly the
      in-order filter. */
  lemma {:induction false} NonBlankLinesConcat(a: seq<string>, b: seq<string>)
    ensures NonBlankLines(a + b) == NonBlankLines(a) + NonBlankLines(b)
    decreases |b|
  {
    if |b| == 0 {
      assert a + b == a;
    } else {
      var init, last := b[..|b| - 1], b[|b| - 1];
      NonBlankLinesConcat(a, init);
      DropLastOfConcat(a, b);
      if !IsBlank(last) {
        AppendAssociates(NonBlankLines(a), NonBlankLines(init), [last]);
      }
    }
  }

  /** The product record built from a page content. */
  function Parse(pageContent: string): (product: Record)
  {
    StoreAll(Entries(NonBlankLines(Split(pageContent, '\n'))))
  }

  /** The parsing loop of lines 61-68, run over the text of the first document. */
  method ParseProduct(pageContent: string) returns (product: Record)
    ensures product == Parse(pageContent)
  {
    var productLines := NonBlankLines(Split(pageContent, '\n'));
    ghost var entries := Entries(productLines);
    product := map[];
    for n := 0 to |productLines|
      invariant product == StoreAll(entries[..n])
    {
      var line := productLines[n];
      StoreAllStep(entries, n);
      if !ContainsDelimiter(line) {
        continue;
      }
      var i := FindDelimiter(line).value;
      var key, value := line[..i], line[i + 2..];
      key := CleanKey(key);
      product := product[key := Strip(value)];
    }
    assert entries[..|productLines|] == entries;
  }

  // ---------------------------------------------------------------------------
  // One line

  /** A blank line never holds the delimiter (':' is not whitespace). */
  lemma BlankLineHasNoDelimiter(line: string)
    requires IsBlank(line)
    ensures ParseLine(line).None?
  {
    StripEmpty(line);
    assert ':' !in line by {
      assert !IsWhitespace(':');
    }
    NoColonNoDelimiter(line);
  }

  lemma NoColonNoDelimiter(line: string)
    requires ':' !in line
    ensures !ContainsDelimiter(line)
  {
  }

  /** A delimited line is cut at its first ": " only: everything after it,
      including any later ": ", is the value up to outer whitespace. */
  lemma {:induction false} ParseLineSplitsAtFirst(pre: string, post: string)
    requires !ContainsDelimiter(pre)
    ensures ParseLine(pre + Delimiter + post) == Some((CleanKey(pre), Strip(post)))
  {
    var line := pre + Delimiter + post;
    assert DelimiterAt(line, |pre|);
    assert forall j :: 0 <= j < |pre| ==> !DelimiterAt(line, j) by {
      forall j | 0 <= j < |pre| ensures !DelimiterAt(line, j) {
        if j + 1 < |pre| {
          assert !DelimiterAt(pre, j);
        }
      }
    }
    var i := FindDelimiter(line).value;
    assert i == |pre|;
    assert line[..i] == pre;
    assert line[i + 2..] == post;
  }

  // ---------------------------------------------------------------------------
  // Many entries

  /** One more turn of the loop stores one more entry. */
  lemma StoreAllStep(entries: seq<Entry>, n: nat)
    requires n < |entries|
    ensures StoreAll(entries[..n + 1]) == Store(StoreAll(entries[..n]), entries[n])
  {
    assert entries[..n + 1][..n] == entries[..n];
  }

  lemma StoreAllSnoc(entries: seq<Entry>, entry: Entry)
    ensures StoreAll(entries + [entry]) == Store(StoreAll(entries), entry)
  {
    assert (entries + [entry])[..|entries|] == entries;
  }

  /** An entry that stores nothing can be removed without changing the record. */
  lemma {:induction false} EmptyEntryIsIgnored(a: seq<Entry>, b: seq<Entry>)
    ensures StoreAll(a + [None] + b) == StoreAll(a + b)
    decreases |b|
  {
    if |b| == 0 {
      assert a + [None] + b == a + [None];
      assert (a + [None])[..|a|] == a;
      assert a + b == a;
    } else {
      var b', last := b[..|b| - 1], b[|b| - 1];
      EmptyEntryIsIgnored(a, b');
      assert a + [None] + b == (a + [None] + b') + [last];
      assert (a + [None] + b)[..|a + [None] + b| - 1] == a + [None] + b';
      assert a + b == (a + b') + [last];
      assert (a + b)[..|a + b| - 1] == a + b';
    }
  }

  /** Entries that all store nothing give the empty record. */
  lemma {:induction false} EmptyEntriesGiveEmptyRecord(entries: seq<Entry>)
    requires forall i :: 0 <= i < |entries| ==> entries[i].None?
    ensures StoreAll(entries) == map[]
  {
    if |entries| > 0 {
      EmptyEntriesGiveEmptyRecord(entries[..|entries| - 1]);
    }
  }

  /** The record's keys are exactly the keys the entries store under. */
  lemma {:induction false} KeysAreStoredKeys(entries: seq<Entry>, key: string)
    ensures key in StoreAll(entries) <==> exists j :: 0 <= j < |entries| && Sets(entries[j], key)
  {
    if |entries| > 0 {
      var init := entries[..|entries| - 1];
      KeysAreStoredKeys(init, key);
      assert forall j :: 0 <= j < |init| ==> init[j] == entries[j];
    }
  }

  /** A key holds the value of the LAST entry that stores under it. */
  lemma {:induction false} LastEntryWins(entries: seq<Entry>, j: int)
    requires 0 <= j < |entries| && entries[j].Some?
    requires forall k :: j < k < |entries| ==> !Sets(entries[k], entries[j].value.0)
    ensures entries[j].value.0 in StoreAll(entries)
    ensures StoreAll(entries)[entries[j].value.0] == entries[j].value.1
    decreases |entries|
  {
    if j < |entries| - 1 {
      var init := entries[..|entries| - 1];
      assert init[j] == entries[j];
      assert !Sets(entries[|entries| - 1], entries[j].value.0);
      LastEntryWins(init, j);
    }
  }

  // ---------------------------------------------------------------------------
  // Many lines

  lemma EntriesConcat(a: seq<string>, b: seq<string>)
    ensures Entries(a + b) == Entries(a) + Entries(b)
  {
    forall i | 0 <= i < |a + b| ensures Entries(a + b)[i] == (Entries(a) + Entries(b))[i] {
      if i < |a| {
        assert (a + b)[i] == a[i];
      } else {
        assert (a + b)[i] == b[i - |a|];
      }
    }
  }

  lemma EntriesSnoc(lines: seq<string>, line: string)
    ensures Entries(lines + [line]) == Entries(lines) + [ParseLine(line)]
  {
    assert forall i :: 0 <= i < |lines| ==> (lines + [line])[i] == lines[i];
  }

  lemma LastSplitOff(lines: seq<string>)
    requires |lines| > 0
    ensures lines == lines[..|lines| - 1] + [lines[|lines| - 1]]
  {
  }

  /** Dropping blank lines first changes nothing: they never hold ": ". */
  lemma {:induction false} BlankFilterIsRedundant(lines: seq<string>)
    ensures StoreAll(Entries(NonBlankLines(lines))) == StoreAll(Entries(lines))
  {
    if |lines| > 0 {
      var init, last := lines[..|lines| - 1], lines[|lines| - 1];
      BlankFilterIsRedundant(init);
      var kept := NonBlankLines(init);
      LastSplitOff(lines);
      EntriesSnoc(init, last);
      StoreAllSnoc(Entries(init), ParseLine(last));
      if IsBlank(last) {
        BlankLineHasNoDelimiter(last);
        assert NonBlankLines(lines) == kept;
      } else {
        assert NonBlankLines(lines) == kept + [last];
        EntriesSnoc(kept, last);
        StoreAllSnoc(Entries(kept), ParseLine(last));
      }
    }
  }

  // ---------------------------------------------------------------------------
  // Whole page contents

  /** The record of a page content is the one of all its lines, blank or not. */
  lemma ParseIsOverAllLines(pageContent: string)
    ensures Parse(pageContent) == StoreAll(Entries(Split(pageContent, '\n')))
  {
    BlankFilterIsRedundant(Split(pageContent, '\n'));
  }

  /** A line that stores nothing can be removed without changing the record. */
  lemma SkippedLineIsIgnored(a: seq<string>, line: string, b: seq<string>)
    requires ParseLine(line).None?
    ensures StoreAll(Entries(a + [line] + b)) == StoreAll(Entries(a + b))
  {
    EntriesConcat(a + [line], b);
    EntriesSnoc(a, line);
    EntriesConcat(a, b);
    EmptyEntryIsIgnored(Entries(a), Entries(b));
  }

  /** Pieces that can be the lines of a page content: none holds "\n". */
  predicate AreLines(pieces: seq<string>)
  {
    forall i :: 0 <= i < |pieces| ==> '\n' !in pieces[i]
  }

  lemma LinesConcat(x: seq<string>, y: seq<string>)
    requires AreLines(x) && AreLines(y)
    ensures AreLines(x + y)
  {
    forall i | 0 <= i < |x + y| ensures '\n' !in (x + y)[i] {
      if i < |x| {
        assert (x + y)[i] == x[i];
      } else {
        assert (x + y)[i] == y[i - |x|];
      }
    }
  }

  /** Inserting a blank line, or a line without ": ", anywhere in a page
      content leaves its record unchanged. */
  lemma InsertedLineIsIgnored(a: seq<string>, line: string, b: seq<string>)
    requires |a + b| >= 1
    requires AreLines(a) && AreLines(b) && '\n' !in line
    requires IsBlank(line) || !ContainsDelimiter(line)
    ensures Parse(Join(a + [line] + b, '\n')) == Parse(Join(a + b, '\n'))
  {
    LinesConcat(a, [line]);
    LinesConcat(a + [line], b);
    LinesConcat(a, b);
    SplitJoin(a + [line] + b, '\n');
    SplitJoin(a + b, '\n');
    ParseIsOverAllLines(Join(a + [line] + b, '\n'));
    ParseIsOverAllLines(Join(a + b, '\n'));
    if IsBlank(line) {
      BlankLineHasNoDelimiter(line);
    }
    SkippedLineIsIgnored(a, line, b);
  }

  /** A page content none of whose lines holds ": " (in particular the empty
      one, or one of blank lines only) parses to the empty record. */
  lemma UndelimitedTextGivesEmptyRecord(pageContent: string)
    requires forall l :: l in Split(pageContent, '\n') ==> !ContainsDelimiter(l)
    ensures Parse(pageContent) == map[]
  {
    ParseIsOverAllLines(pageContent);
    EmptyEntriesGiveEmptyRecord(Entries(Split(pageContent, '\n')));
  }

  /** The empty page content parses to the empty record. */
  lemma EmptyTextGivesEmptyRecord()
    ensures Parse("") == map[]
  {
    UndelimitedTextGivesEmptyRecord("");
  }

  lemma KeysOfLines(lines: seq<string>, key: string)
    ensures key in StoreAll(Entries(lines)) <==> exists j :: 0 <= j < |lines| && Defines(lines[j], key)
  {
    KeysAreStoredKeys(Entries(lines), key);
    if key in StoreAll(Entries(lines)) {
      var j :| 0 <= j < |lines| && Sets(Entries(lines)[j], key);
      assert Defines(lines[j], key);
    } else {
      forall j | 0 <= j < |lines| ensures !Defines(lines[j], key) {
        assert !Sets(Entries(lines)[j], key);
      }
    }
  }

  /** The keys of a parsed record are exactly the cleaned keys of its delimited lines. */
  lemma ParsedKeys(pageContent: string, key: string)
    ensures var lines := Split(pageContent, '\n');
            key in Parse(pageContent) <==> exists j :: 0 <= j < |lines| && Defines(lines[j], key)
  {
    ParseIsOverAllLines(pageContent);
    KeysOfLines(Split(pageContent, '\n'), key);
  }

  /** No key of a parsed record, whichever line it came from, starts with U+FEFF. */
  lemma ParsedKeysHaveNoBom(pageContent: string, key: string)
    requires key in Parse(pageContent)
    ensures key == [] || key[0] != Bom
  {
    ParsedKeys(pageContent, key);
    var j :| 0 <= j < |Split(pageContent, '\n')| && Defines(Split(pageContent, '\n')[j], key);
  }

  /** The value under a key is the value of the last line that defines it. */
  lemma ParsedValue(pageContent: string, j: int)
    requires 0 <= j < |Split(pageContent, '\n')|
    requires ParseLine(Split(pageContent, '\n')[j]).Some?
    requires var lines := Split(pageContent, '\n');
             forall k :: j < k < |lines| ==> !Defines(lines[k], ParseLine(lines[j]).value.0)
    ensures var (key, value) := ParseLine(Split(pageContent, '\n')[j]).value;
            key in Parse(pageContent) && Parse(pageContent)[key] == value
  {
    var lines := Split(pageContent, '\n');
    ParseIsOverAllLines(pageContent);
    LastEntryWins(Entries(lines), j);
  }

  /** Writing a clean key and value as `key: value` and parsing the line
      gives the pair back. */
  lemma LineRoundTrip(key: string, value: string)
    requires !ContainsDelimiter(key)
    requires key == [] || (!IsWhitespace(key[0]) && !IsWhitespace(key[|key| - 1]) && key[0] != Bom)
    requires value == [] || (!IsWhitespace(value[0]) && !IsWhitespace(value[|value| - 1]))
    ensures ParseLine(key + Delimiter + value) == Some((key, value))
  {
    ParseLineSplitsAtFirst(key, value);
    StripUnchanged(key);
    StripUnchanged(value);
  }

  /** The same line with any number of U+FEFF in front of the key parses to
      the same pair: every leading U+FEFF is dropped from the key. */
  lemma LeadingBomsDropped(n: nat, key: string, value: string)
    requires !ContainsDelimiter(key)
    requires key == [] || (!IsWhitespace(key[0]) && !IsWhitespace(key[|key| - 1]) && key[0] != Bom)
    requires value == [] || (!IsWhitespace(value[0]) && !IsWhitespace(value[|value| - 1]))
    ensures ParseLine(seq(n, _ => Bom) + key + Delimiter + value) == Some((key, value))
  {
    var pre := seq(n, _ => Bom) + key;
    BomsAddNoDelimiter(n, key);
    ParseLineSplitsAtFirst(pre, value);
    CleanKeyDropsBoms(n, key);
    StripUnchanged(value);
  }

  /** U+FEFF is not ':', so leading copies of it cannot start a ": ". */
  lemma BomsAddNoDelimiter(n: nat, key: string)
    requires !ContainsDelimiter(key)
    ensures !ContainsDelimiter(seq(n, _ => Bom) + key)
  {
    var pre := seq(n, _ => Bom) + key;
    forall j | 0 <= j < |pre| ensures !DelimiterAt(pre, j) {
      if n <= j && DelimiterAt(pre, j) {
        assert DelimiterAt(key, j - n);
      }
    }
  }

  lemma CleanKeyDropsBoms(n: nat, key: string)
    requires key == [] || (!IsWhitespace(key[0]) && !IsWhitespace(key[|key| - 1]) && key[0] != Bom)
    ensures CleanKey(seq(n, _ => Bom) + key) == key
  {
    var pre := seq(n, _ => Bom) + key;
    assert forall i :: 0 <= i < n ==> pre[i] == Bom;
    assert n < |pre| ==> pre[n] == key[0];
    assert pre == [] || (!IsWhitespace(pre[0]) && !IsWhitespace(pre[|pre| - 1])) by {
      assert !IsWhitespace(Bom);
    }
    StripUnchanged(pre);
    BomsCounted(pre, n, 0);
    assert pre[n..] == key;
  }

  /** `CountLeading` stops at the first character that is not U+FEFF. */
  lemma {:induction false} BomsCounted(s: string, n: nat, from: nat)
    requires from <= n <= |s|
    requires forall i :: from <= i < n ==> s[i] == Bom
    requires n == |s| || s[n] != Bom
    ensures CountLeading(s, Bom, from) == n
    decreases n - from
  {
    if from < n {
      BomsCounted(s, n, from + 1);
    }
  }

  /** A text of two lines parses to the record their two entries build. */
  lemma TwoLines(line1: string, line2: string)
    requires '\n' !in line1 && '\n' !in line2
    ensures Parse(line1 + "\n" + line2) == Store(Store(map[], ParseLine(line1)), ParseLine(line2))
  {
    var lines := [line1, line2];
    assert Join(lines, '\n') == line1 + "\n" + line2;
    SplitJoin(lines, '\n');
    ParseIsOverAllLines(line1 + "\n" + line2);
    EntriesSnoc([line1], line2);
    EntriesSnoc([], line1);
    assert [] + [line1] == [line1] && [line1] + [line2] == lines;
    var e1, e2 := ParseLine(line1), ParseLine(line2);
    StoreAllSnoc([e1], e2);
    StoreAllSnoc([], e1);
    assert [] + [e1] == [e1];
  }

  /** Two lines that set the same clean key parse to a record holding only
      that key, with the value from the second line. */
  lemma DuplicateKeyLastWins(key: string, first: string, second: string)
    requires !ContainsDelimiter(key) && '\n' !in key && '\n' !in first && '\n' !in second
    requires key == [] || (!IsWhitespace(key[0]) && !IsWhitespace(key[|key| - 1]) && key[0] != Bom)
    requires first == [] || (!IsWhitespace(first[0]) && !IsWhitespace(first[|first| - 1]))
    requires second == [] || (!IsWhitespace(second[0]) && !IsWhitespace(second[|second| - 1]))
    ensures Parse(key + Delimiter + first + "\n" + key + Delimiter + second) == map[key := second]
  {
    var line1, line2 := key + Delimiter + first, key + Delimiter + second;
    assert line1 + "\n" + line2 == key + Delimiter + first + "\n" + key + Delimiter + second;
    assert '\n' !in line1 && '\n' !in line2;
    TwoLines(line1, line2);
    LineRoundTrip(key, first);
    LineRoundTrip(key, second);
    StoreOverwrites(key, first, second);
  }

  lemma StoreOverwrites(key: string, first: string, second: string)
    ensures Store(map[key := first], Some((key, second))) == map[key := second]
  {
    var m := map[key := first][key := second];
    assert m.Keys == {key};
    assert m[key] == second;
  }
}
