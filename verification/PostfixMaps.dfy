/** The text maps Postfix reads: how `renderMap` prints them and how a texthash table
    reads them back. */
module PostfixMaps {
  import opened Text
  import opened StableSort

  type Entry = (string, string)

  const HEADER: string := "# Generated by wispbox. DO NOT EDIT."

  // ---- printing ----

  function KeyOrder(): (Entry, Entry) -> bool {
    (a: Entry, b: Entry) => !Less(b.0, a.0)
  }

  function LineText(e: Entry): string {
    e.0 + " " + e.1
  }

  function RenderLine(e: Entry): string {
    if e.0 == "" then "" else LineText(e) + ['\n']
  }

  function RenderLines(lines: seq<Entry>): string {
    if lines == [] then "" else RenderLine(lines[0]) + RenderLines(lines[1..])
  }

  lemma {:induction false} RenderLinesAppend(lines: seq<Entry>, e: Entry)
    ensures RenderLines(lines + [e]) == RenderLines(lines) + RenderLine(e)
  {
    if lines == [] {
      assert lines + [e] == [e];
      assert [e][1..] == [];
    } else {
      assert (lines + [e])[0] == lines[0] && (lines + [e])[1..] == lines[1..] + [e];
      RenderLinesAppend(lines[1..], e);
    }
  }

  /** The file for a list of pairs, under a comment line. */
  function TextUnder(comment: string, lines: seq<Entry>): string {
    comment + ['\n'] + RenderLines(Sort(lines, KeyOrder()))
  }

  function MapText(lines: seq<Entry>): string {
    TextUnder(HEADER, lines)
  }

  method RenderMap(lines: seq<Entry>) returns (text: string)
    ensures text == MapText(lines)
  {
    text := HEADER + ['\n'];
    var body := RenderBody(Sort(lines, KeyOrder()));
    text := text + body;
  }

  method RenderBody(sorted: seq<Entry>) returns (body: string)
    ensures body == RenderLines(sorted)
  {
    body := "";
    for i := 0 to |sorted|
      invariant body == RenderLines(sorted[..i])
    {
      RenderLinesAppend(sorted[..i], sorted[i]);
      assert sorted[..i] + [sorted[i]] == sorted[..i + 1];
      if sorted[i].0 == "" {
        continue;
      }
      body := body + RenderLine(sorted[i]);
    }
    assert sorted[..|sorted|] == sorted;
  }

  // ---- reading ----

  function FirstSpace(line: string): (i: nat)
    ensures i <= |line| && (i < |line| ==> IsSpace(line[i]))
    ensures forall j :: 0 <= j < i ==> !IsSpace(line[j])
  {
    if line == "" || IsSpace(line[0]) then 0 else 1 + FirstSpace(line[1..])
  }

  /** A texthash line: a key up to the first blank, folded to lower case, then the value without
      outer blanks. Empty lines, comments and lines that begin with a blank define no key. */
  function ParseLine(line: string): Option<Entry> {
    if line == "" || line[0] == '#' || IsSpace(line[0]) then None
    else Some((ToLower(line[..FirstSpace(line)]), TrimSpace(line[FirstSpace(line)..])))
  }

  function ParseLines(lines: seq<string>): seq<Entry> {
    if lines == [] then [] else
      (match ParseLine(lines[0]) case Some(e) => [e] case None => []) + ParseLines(lines[1..])
  }

  function ParseMap(text: string): seq<Entry> {
    ParseLines(Split(text, '\n'))
  }

  /** The first entry with the key. */
  function Lookup(entries: seq<Entry>, key: string): Option<string> {
    if entries == [] then None
    else if entries[0].0 == key then Some(entries[0].1)
    else Lookup(entries[1..], key)
  }

  /** How Postfix asks: it folds the key to lower case too. Of two entries with one folded key
      the first counts. */
  function Query(entries: seq<Entry>, key: string): Option<string> {
    Lookup(entries, ToLower(key))
  }

  // ---- reading back what was printed ----

  predicate NoSpaces(s: string) {
    forall i :: 0 <= i < |s| ==> !IsSpace(s[i])
  }

  /** A pair that fits on one line: a key without blanks that is no comment, a value on one line. */
  predicate Printable(e: Entry) {
    && e.0 != "" && e.0[0] != '#' && NoSpaces(e.0)
    && '\n' !in e.1
  }

  lemma FirstSpaceAt(key: string, rest: string)
    requires NoSpaces(key)
    ensures FirstSpace(key + " " + rest) == |key|
    ensures (key + " " + rest)[..|key|] == key && (key + " " + rest)[|key|..] == " " + rest
  {
    var line := key + " " + rest;
    assert line == key + (" " + rest);
    assert line[|key|] == ' ';
    assert forall j :: 0 <= j < |key| ==> line[j] == key[j];
  }

  lemma TrimLeadingBlank(s: string)
    ensures TrimSpace(" " + s) == TrimSpace(s)
  {
    assert (" " + s)[1..] == s;
  }

  lemma ParseRenderedLine(e: Entry)
    requires Printable(e)
    ensures ParseLine(LineText(e)) == Some((ToLower(e.0), TrimSpace(e.1)))
    ensures '\n' !in LineText(e) && RenderLine(e) == LineText(e) + ['\n']
  {
    FirstSpaceAt(e.0, e.1);
    TrimLeadingBlank(e.1);
    assert (e.0 + " " + e.1)[0] == e.0[0];
  }

  /** The pairs as they read back: keys in lower case, values without their outer blanks. */
  function Shaved(lines: seq<Entry>): (r: seq<Entry>) {
    if lines == [] then [] else [(ToLower(lines[0].0), TrimSpace(lines[0].1))] + Shaved(lines[1..])
  }

  /** One line in front of a text adds what that line parses to. */
  lemma ParseMapPrepend(line: string, text: string)
    requires '\n' !in line
    ensures ParseMap(line + ['\n'] + text) ==
            (match ParseLine(line) case Some(e) => [e] case None => []) + ParseMap(text)
  {
    SplitAppend(line, '\n', text);
    var lines := [line] + Split(text, '\n');
    assert lines[0] == line && lines[1..] == Split(text, '\n');
  }

  lemma {:induction false} ParseRenderedLines(lines: seq<Entry>)
    requires forall i :: 0 <= i < |lines| ==> Printable(lines[i])
    ensures ParseMap(RenderLines(lines)) == Shaved(lines)
  {
    if lines == [] {
      assert Split("", '\n') == [""];
      assert [""][1..] == [];
    } else {
      var e, rest := lines[0], lines[1..];
      ParseRenderedLines(rest);
      ParseRenderedLine(e);
      ParseMapPrepend(LineText(e), RenderLines(rest));
    }
  }

  lemma ParseMapText(comment: string, lines: seq<Entry>)
    requires comment != "" && comment[0] == '#' && '\n' !in comment
    requires forall i :: 0 <= i < |lines| ==> Printable(lines[i])
    ensures ParseMap(TextUnder(comment, lines)) == Shaved(Sort(lines, KeyOrder()))
  {
    var sorted := Sort(lines, KeyOrder());
    forall i | 0 <= i < |sorted|
      ensures Printable(sorted[i])
    {
      assert sorted[i] in multiset(sorted);
      assert sorted[i] in lines;
    }
    ParseRenderedLines(sorted);
    ParseMapPrepend(comment, RenderLines(sorted));
  }

  // ---- lookups survive printing ----

  lemma {:induction false} LookupIsFirstOfFilter(entries: seq<Entry>, key: string)
    ensures var hits := Filter(entries, (e: Entry) => e.0 == key);
            Lookup(entries, key) == if hits == [] then None else Some(hits[0].1)
  {
    if entries != [] {
      LookupIsFirstOfFilter(entries[1..], key);
    }
  }

  lemma LookupSorted(entries: seq<Entry>, key: string)
    ensures Lookup(Sort(entries, KeyOrder()), key) == Lookup(entries, key)
  {
    var p := (e: Entry) => e.0 == key;
    LessIrreflexive(key);
    assert ClassOf(p, KeyOrder());
    SortStable(entries, KeyOrder(), p);
    LookupIsFirstOfFilter(entries, key);
    LookupIsFirstOfFilter(Sort(entries, KeyOrder()), key);
  }

  /** The first entry whose key is the given one up to case. */
  function LookupFolded(entries: seq<Entry>, key: string): Option<string> {
    if entries == [] then None
    else if ToLower(entries[0].0) == ToLower(key) then Some(entries[0].1)
    else LookupFolded(entries[1..], key)
  }

  function Shave(found: Option<string>): Option<string> {
    match found
    case Some(v) => Some(TrimSpace(v))
    case None => None
  }

  lemma {:induction false} QueryShaved(entries: seq<Entry>, key: string)
    ensures Query(Shaved(entries), key) == Shave(LookupFolded(entries, key))
  {
    if entries != [] {
      QueryShaved(entries[1..], key);
    }
  }

  lemma HeaderIsComment()
    ensures HEADER != "" && HEADER[0] == '#' && '\n' !in HEADER
  {
  }

  /** Postfix finds in the printed file the first pair, in the order of the keys, whose key is the
      one asked for up to case; the value loses its outer blanks. */
  lemma LookupPrinted(lines: seq<Entry>, key: string)
    requires forall i :: 0 <= i < |lines| ==> Printable(lines[i])
    ensures Query(ParseMap(MapText(lines)), key) == Shave(LookupFolded(Sort(lines, KeyOrder()), key))
  {
    HeaderIsComment();
    ParseMapText(HEADER, lines);
    QueryShaved(Sort(lines, KeyOrder()), key);
  }

  ghost predicate LowerKeys(lines: seq<Entry>) {
    forall e :: e in lines ==> ToLower(e.0) == e.0
  }

  lemma {:induction false} FoldedIsExact(entries: seq<Entry>, key: string)
    requires LowerKeys(entries)
    ensures LookupFolded(entries, key) == Lookup(entries, ToLower(key))
  {
    if entries != [] {
      assert entries[0] in entries;
      FoldedIsExact(entries[1..], key);
    }
  }

  lemma SortMembers(lines: seq<Entry>)
    ensures forall e :: e in Sort(lines, KeyOrder()) <==> e in lines
  {
    var sorted := Sort(lines, KeyOrder());
    assert forall e :: e in sorted <==> e in multiset(sorted);
    assert forall e :: e in lines <==> e in multiset(lines);
  }

  /** With keys in lower case, it finds exactly what the table holds, up to outer blanks. */
  lemma LookupPrintedLower(lines: seq<Entry>, key: string)
    requires LowerKeys(lines) && forall i :: 0 <= i < |lines| ==> Printable(lines[i])
    ensures Query(ParseMap(MapText(lines)), key) == Shave(Lookup(lines, ToLower(key)))
  {
    LookupPrinted(lines, key);
    SortMembers(lines);
    FoldedIsExact(Sort(lines, KeyOrder()), key);
    LookupSorted(lines, ToLower(key));
  }

  lemma {:induction false} FoldedMember(entries: seq<Entry>, key: string)
    ensures match LookupFolded(entries, key)
            case None => forall e :: e in entries ==> ToLower(e.0) != ToLower(key)
            case Some(v) => exists e :: e in entries && ToLower(e.0) == ToLower(key) && e.1 == v
  {
    if entries != [] {
      FoldedMember(entries[1..], key);
      if ToLower(entries[0].0) == ToLower(key) {
        assert entries[0] in entries;
      } else if LookupFolded(entries, key).Some? {
        var e :| e in entries[1..] && ToLower(e.0) == ToLower(key) && e.1 == LookupFolded(entries, key).value;
        assert e in entries;
      }
    }
  }

  /** In any printed table, whatever the case of its keys: a query is answered exactly if a key
      matches up to case, and then with the value of such a pair. */
  lemma PrintedMember(lines: seq<Entry>, key: string)
    requires forall i :: 0 <= i < |lines| ==> Printable(lines[i])
    ensures match Query(ParseMap(MapText(lines)), key)
            case None => forall e :: e in lines ==> ToLower(e.0) != ToLower(key)
            case Some(v) => exists e :: e in lines && ToLower(e.0) == ToLower(key) && v == TrimSpace(e.1)
  {
    LookupPrinted(lines, key);
    SortMembers(lines);
    FoldedMember(Sort(lines, KeyOrder()), key);
  }
}
