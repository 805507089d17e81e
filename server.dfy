/** The HTTP server's own logic: rewriting the `.env` file when API keys are saved, masking
    the keys it reports, and checking or normalising request bodies before the database. */
module Server {
  import opened Wrappers
  import opened Seqs
  import opened Text
  import opened Js

  // ---------------------------------------------------------------- an insertion-ordered map

  datatype Entry = Entry(key: string, value: string)

  function Keys(es: seq<Entry>): seq<string> {
    seq(|es|, i requires 0 <= i < |es| => es[i].key)
  }

  predicate DistinctKeys(es: seq<Entry>) {
    forall i, j | 0 <= i < j < |es| :: es[i].key != es[j].key
  }

  /** The index of the entry for `k`, or -1. */
  function IndexOfKey(es: seq<Entry>, k: string): (r: int)
    ensures -1 <= r < |es|
    ensures r >= 0 ==> es[r].key == k && forall j | 0 <= j < r :: es[j].key != k
    ensures r == -1 ==> forall j | 0 <= j < |es| :: es[j].key != k
  {
    if es == [] then -1
    else if es[0].key == k then 0
    else
      var r := IndexOfKey(es[1..], k);
      if r < 0 then -1 else r + 1
  }

  /** `map.get(k)`. */
  function Lookup(es: seq<Entry>, k: string): Option<string> {
    var i := IndexOfKey(es, k);
    if i < 0 then None else Some(es[i].value)
  }

  lemma KeysIndex(es: seq<Entry>, k: string)
    ensures k in Keys(es) <==> IndexOfKey(es, k) >= 0
  {
    var i := IndexOfKey(es, k);
    if i >= 0 {
      assert Keys(es)[i] == k;
    }
    if k in Keys(es) {
      var j :| 0 <= j < |Keys(es)| && Keys(es)[j] == k;
      assert es[j].key == k;
    }
  }

  lemma IndexOfKeyIs(es: seq<Entry>, k: string, i: nat)
    requires i < |es| && es[i].key == k && forall j | 0 <= j < i :: es[j].key != k
    ensures IndexOfKey(es, k) == i
  {
  }

  /** `map.set(k, v)`: an existing key keeps its place and takes the new value; a new key goes
      last. */
  function SetEntry(es: seq<Entry>, k: string, v: string): (r: seq<Entry>)
    ensures Lookup(r, k) == Some(v)
    ensures forall k' | k' != k :: Lookup(r, k') == Lookup(es, k')
    ensures Keys(r) == if k in Keys(es) then Keys(es) else Keys(es) + [k]
    ensures DistinctKeys(es) ==> DistinctKeys(r)
  {
    var i := IndexOfKey(es, k);
    var r := if i >= 0 then es[i := Entry(k, v)] else es + [Entry(k, v)];
    KeysIndex(es, k);
    forall k' | k' != k ensures Lookup(r, k') == Lookup(es, k') {
      SetEntryOther(es, k, v, k', r);
    }
    SetEntrySelf(es, k, v, r);
    assert Keys(r) == if i >= 0 then Keys(es) else Keys(es) + [k];
    r
  }

  lemma SetEntrySelf(es: seq<Entry>, k: string, v: string, r: seq<Entry>)
    requires r == if IndexOfKey(es, k) >= 0 then es[IndexOfKey(es, k) := Entry(k, v)] else es + [Entry(k, v)]
    ensures IndexOfKey(r, k) == if IndexOfKey(es, k) >= 0 then IndexOfKey(es, k) else |es|
  {
    var i := IndexOfKey(es, k);
    if i >= 0 {
      OverwriteKeepsIndex(es, k, v, i);
    } else {
      AppendIndex(es, k, v);
    }
  }

  lemma OverwriteKeepsIndex(es: seq<Entry>, k: string, v: string, i: nat)
    requires i < |es| && es[i].key == k && forall j | 0 <= j < i :: es[j].key != k
    ensures IndexOfKey(es[i := Entry(k, v)], k) == i
  {
    var r := es[i := Entry(k, v)];
    forall j | 0 <= j < i ensures r[j].key != k {
      assert r[j] == es[j];
    }
    IndexOfKeyIs(r, k, i);
  }

  lemma AppendIndex(es: seq<Entry>, k: string, v: string)
    requires forall j | 0 <= j < |es| :: es[j].key != k
    ensures IndexOfKey(es + [Entry(k, v)], k) == |es|
  {
    var r := es + [Entry(k, v)];
    forall j | 0 <= j < |es| ensures r[j].key != k {
      assert r[j] == es[j];
    }
    IndexOfKeyIs(r, k, |es|);
  }

  lemma SetEntryOther(es: seq<Entry>, k: string, v: string, k': string, r: seq<Entry>)
    requires k' != k
    requires r == if IndexOfKey(es, k) >= 0 then es[IndexOfKey(es, k) := Entry(k, v)] else es + [Entry(k, v)]
    ensures IndexOfKey(r, k') == IndexOfKey(es, k')
    ensures IndexOfKey(es, k') >= 0 ==> r[IndexOfKey(es, k')] == es[IndexOfKey(es, k')]
  {
    var i := IndexOfKey(es, k);
    assert |es| <= |r|;
    assert forall j | 0 <= j < |es| :: r[j] == es[j] || (j == i && r[j].key == k && es[j].key == k);
    assert |r| > |es| ==> r[|es|].key == k;
    var b := IndexOfKey(es, k');
    if b >= 0 {
      IndexOfKeyIs(r, k', b);
    } else {
      NoIndex(r, k');
    }
  }

  lemma NoIndex(es: seq<Entry>, k: string)
    requires forall j | 0 <= j < |es| :: es[j].key != k
    ensures IndexOfKey(es, k) == -1
  {
  }

  /** A JavaScript `Map<string, string>`: its entries in insertion order. */
  class OrderedMap {
    var entries: seq<Entry>

    ghost predicate Valid()
      reads this
    {
      DistinctKeys(entries)
    }

    constructor ()
      ensures Valid() && entries == []
    {
      entries := [];
    }

    /** `set`: find the key's slot by a scan, then overwrite it or append. */
    method Set(k: string, v: string)
      requires Valid()
      modifies this
      ensures Valid()
      ensures entries == SetEntry(old(entries), k, v)
    {
      var i := 0;
      while i < |entries| && entries[i].key != k
        invariant 0 <= i <= |entries|
        invariant forall j | 0 <= j < i :: entries[j].key != k
      {
        i := i + 1;
      }
      if i < |entries| {
        entries := entries[i := Entry(k, v)];
      } else {
        entries := entries + [Entry(k, v)];
      }
    }
  }

  // ---------------------------------------------------------------- the .env rewrite

  predicate NonBlank(line: string) {
    Trim(line) != []
  }

  function NonBlankLine(): string -> bool {
    line => NonBlank(line)
  }

  /** The lines kept from the file: those with a non-whitespace character. */
  function EnvLines(content: string): seq<string> {
    Filter(Split(content, '\n'), NonBlankLine())
  }

  /** One line: the text before the first `=` is the key, the rest (re-joined with `=`) the
      value, both trimmed. The line is skipped only when that text is empty before trimming. */
  function ParseLine(line: string): (r: Option<Entry>)
    ensures r.Some? ==> Split(line, '=')[0] != "" && r.value.key == Trim(Split(line, '=')[0])
    ensures r.None? <==> IndexOf(line, '=') == 0 || line == ""
    ensures r.Some? ==>
      r.value.key == Trim(if IndexOf(line, '=') < 0 then line else line[..IndexOf(line, '=')])
    ensures r.Some? ==>
      r.value.value == (if IndexOf(line, '=') < 0 then "" else Trim(line[IndexOf(line, '=') + 1..]))
  {
    var parts := Split(line, '=');
    if parts[0] == "" then None
    else
      LinePieces(line);
      Some(Entry(Trim(parts[0]), Trim(Join(parts[1..], "="))))
  }

  /** The parts of a line split at `=`: the text before the first `=`, and the rest re-joined. */
  lemma LinePieces(line: string)
    ensures Trim(Split(line, '=')[0]) ==
      Trim(if IndexOf(line, '=') < 0 then line else line[..IndexOf(line, '=')])
    ensures Trim(Join(Split(line, '=')[1..], "=")) ==
      (if IndexOf(line, '=') < 0 then "" else Trim(line[IndexOf(line, '=') + 1..]))
  {
    var i := IndexOf(line, '=');
    if i < 0 {
      assert Split(line, '=') == [line];
      assert Trim("") == "";
    } else {
      var head, tail := line[..i], Split(line[i + 1..], '=');
      SplitAt(line, '=');
      assert Split(line, '=') == [head] + tail;
      assert ([head] + tail)[1..] == tail;
      JoinSplit(line[i + 1..], '=');
    }
  }

  /** A key of spaces only is not skipped: it is stored under the empty key. */
  lemma SpacesOnlyKeyIsKept()
    ensures ParseLine(" =x") == Some(Entry("", "x"))
  {
    var line := " =x";
    assert line[..1] == " " && line[1] == '=';
    IndexOfIs(line, '=', 1);
    SplitAt(line, '=');
    assert line[2..] == "x";
    assert Free("x", '=');
    assert Split("x", '=') == ["x"];
    assert Split(line, '=') == [" ", "x"];
    assert Join(["x"], "=") == "x";
    assert " "[1..] == "";
    assert TrimStart(" ") == "";
    TrimOfTrimmed("x");
  }

  /** The entries after feeding `lines` to `set`, in order. */
  function LoadLines(es: seq<Entry>, lines: seq<string>): (r: seq<Entry>)
    ensures DistinctKeys(es) ==> DistinctKeys(r)
    ensures forall k | k in Keys(es) :: k in Keys(r)
    decreases |lines|
  {
    if lines == [] then es
    else
      var before := LoadLines(es, lines[..|lines| - 1]);
      match ParseLine(lines[|lines| - 1])
      case Some(e) => SetEntry(before, e.key, e.value)
      case None => before
  }

  /** The value on the last line that sets `k`, if any. */
  function LastValue(lines: seq<string>, k: string): Option<string>
    decreases |lines|
  {
    if lines == [] then None
    else
      var e := ParseLine(lines[|lines| - 1]);
      if e.Some? && e.value.key == k then Some(e.value.value) else LastValue(lines[..|lines| - 1], k)
  }

  /** A key set on several lines takes the value of the last of them. */
  lemma {:induction false} LastLineWins(es: seq<Entry>, lines: seq<string>, k: string)
    ensures Lookup(LoadLines(es, lines), k) == if LastValue(lines, k).Some? then LastValue(lines, k) else Lookup(es, k)
    decreases |lines|
  {
    if lines != [] {
      LastLineWins(es, lines[..|lines| - 1], k);
    }
  }

  /** Keys in order of first appearance. */
  function FirstAppearance(ks: seq<string>): seq<string>
    decreases |ks|
  {
    if ks == [] then []
    else
      var before := FirstAppearance(ks[..|ks| - 1]);
      if ks[|ks| - 1] in before then before else before + [ks[|ks| - 1]]
  }

  /** The keys the lines set, in line order (repeats included). */
  function LineKeys(lines: seq<string>): seq<string>
    decreases |lines|
  {
    if lines == [] then []
    else
      var e := ParseLine(lines[|lines| - 1]);
      LineKeys(lines[..|lines| - 1]) + (if e.Some? then [e.value.key] else [])
  }

  /** A repeated key keeps the position of its first line. */
  lemma {:induction false} FirstLineOrders(lines: seq<string>)
    ensures Keys(LoadLines([], lines)) == FirstAppearance(LineKeys(lines))
    decreases |lines|
  {
    if lines != [] {
      var init := lines[..|lines| - 1];
      FirstLineOrders(init);
      var e := ParseLine(lines[|lines| - 1]);
      if e.Some? {
        var ks := LineKeys(init) + [e.value.key];
        assert LineKeys(lines) == ks;
        assert ks[..|ks| - 1] == LineKeys(init);
      } else {
        assert LineKeys(lines) == LineKeys(init);
      }
    }
  }

  const OpenAIKeyName := "VITE_OPENAI_API_KEY"
  const AnthropicKeyName := "VITE_ANTHROPIC_API_KEY"

  /** The overwrites: only a key whose new value is provided (not undefined) is set. */
  function Merge(es: seq<Entry>, openAIKey: Option<string>, anthropicKey: Option<string>): (r: seq<Entry>)
    ensures DistinctKeys(es) ==> DistinctKeys(r)
  {
    var withOpenAI := if openAIKey.Some? then SetEntry(es, OpenAIKeyName, openAIKey.value) else es;
    if anthropicKey.Some? then SetEntry(withOpenAI, AnthropicKeyName, anthropicKey.value) else withOpenAI
  }

  /** A provided key takes its new value, an omitted one keeps the file's, every other entry
      is unchanged, and existing keys keep their order with new keys appended. */
  lemma MergeSpec(es: seq<Entry>, openAIKey: Option<string>, anthropicKey: Option<string>)
    ensures var m := Merge(es, openAIKey, anthropicKey);
      Lookup(m, OpenAIKeyName) == (if openAIKey.Some? then openAIKey else Lookup(es, OpenAIKeyName)) &&
      Lookup(m, AnthropicKeyName) == (if anthropicKey.Some? then anthropicKey else Lookup(es, AnthropicKeyName)) &&
      (forall k | k != OpenAIKeyName && k != AnthropicKeyName :: Lookup(m, k) == Lookup(es, k)) &&
      |Keys(es)| <= |Keys(m)| && Keys(m)[..|Keys(es)|] == Keys(es) &&
      (forall k | k in Keys(m)[|Keys(es)|..] :: k !in Keys(es) && (k == OpenAIKeyName || k == AnthropicKeyName))
  {
    var w := if openAIKey.Some? then SetEntry(es, OpenAIKeyName, openAIKey.value) else es;
    var m := Merge(es, openAIKey, anthropicKey);
    assert m == if anthropicKey.Some? then SetEntry(w, AnthropicKeyName, anthropicKey.value) else w;
    KeysGrow(es, w, OpenAIKeyName);
    KeysGrow(w, m, AnthropicKeyName);
    KeysGrowTwice(Keys(es), Keys(w), Keys(m), OpenAIKeyName, AnthropicKeyName);
  }

  /** `Keys(after)` is `Keys(before)` with possibly `k` appended, when `k` was new. */
  predicate GrowsBy(before: seq<string>, after: seq<string>, k: string) {
    after == before || (k !in before && after == before + [k])
  }

  lemma KeysGrow(es: seq<Entry>, r: seq<Entry>, k: string)
    requires r == es || exists v :: r == SetEntry(es, k, v)
    ensures GrowsBy(Keys(es), Keys(r), k)
  {
    if r != es {
      var v :| r == SetEntry(es, k, v);
    }
  }

  lemma KeysGrowTwice(a: seq<string>, b: seq<string>, c: seq<string>, k1: string, k2: string)
    requires GrowsBy(a, b, k1) && GrowsBy(b, c, k2)
    ensures |a| <= |c| && c[..|a|] == a
    ensures forall k | k in c[|a|..] :: k !in a && (k == k1 || k == k2)
  {
    if b != a && c != b {
      assert c[|a|..] == [k1, k2];
    } else if b != a {
      assert c[|a|..] == [k1];
    } else if c != b {
      assert c[|a|..] == [k2];
    } else {
      assert c[|a|..] == [];
    }
  }

  function EntryLine(e: Entry): string {
    e.key + "=" + e.value
  }

  function EntryLines(es: seq<Entry>): (r: seq<string>)
    ensures |r| == |es| && forall i | 0 <= i < |es| :: r[i] == EntryLine(es[i])
  {
    seq(|es|, i requires 0 <= i < |es| => EntryLine(es[i]))
  }

  /** One `key=value` line per entry, joined by line breaks, with one final line break. */
  function Serialise(es: seq<Entry>): (r: string)
    ensures r != [] && r[|r| - 1] == '\n'
  {
    Join(EntryLines(es), "\n") + "\n"
  }

  /** The whole file: the kept lines of the old content, loaded, then the overwrites. */
  function ParseEnv(content: string): (r: seq<Entry>)
    ensures DistinctKeys(r)
  {
    LoadLines([], EnvLines(content))
  }

  /** An entry that survives a write and a read: a trimmed non-empty key without `=` or line
      breaks, and a trimmed value without line breaks (it may hold `=`). */
  predicate EntryWellFormed(e: Entry) {
    e.key != "" && Trimmed(e.key) && Free(e.key, '=') && Free(e.key, '\n') &&
    Trimmed(e.value) && Free(e.value, '\n')
  }

  /** Neither end is white space, so `Trim` leaves it as it is. */
  predicate Trimmed(s: string) {
    s == [] || (!IsSpace(s[0]) && !IsSpace(s[|s| - 1]))
  }

  predicate WellFormed(es: seq<Entry>) {
    DistinctKeys(es) && forall i | 0 <= i < |es| :: EntryWellFormed(es[i])
  }

  lemma ParseEntryLine(e: Entry)
    requires EntryWellFormed(e)
    ensures ParseLine(EntryLine(e)) == Some(e)
  {
    var line := EntryLine(e);
    assert line[..|e.key|] == e.key;
    IndexOfIs(line, '=', |e.key|);
    SplitAt(line, '=');
    assert line[|e.key| + 1..] == e.value;
    assert Split(line, '=') == [e.key] + Split(e.value, '=');
    assert Split(line, '=')[1..] == Split(e.value, '=');
    JoinSplit(e.value, '=');
    TrimOfTrimmed(e.key);
    TrimOfTrimmed(e.value);
  }

  lemma EntryLineNonBlank(e: Entry)
    requires EntryWellFormed(e)
    ensures NonBlank(EntryLine(e))
  {
    assert EntryLine(e)[0] == e.key[0];
    TrimEmptyIffAllSpace(EntryLine(e));
  }

  lemma EntryLineFree(e: Entry)
    requires EntryWellFormed(e)
    ensures Free(EntryLine(e), '\n')
  {
    var line := EntryLine(e);
    forall j | 0 <= j < |line| ensures line[j] != '\n' {
      if j < |e.key| {
        assert line[j] == e.key[j];
      } else if j > |e.key| {
        assert line[j] == e.value[j - |e.key| - 1];
      }
    }
  }

  lemma {:induction false} LoadEntryLines(es: seq<Entry>)
    requires WellFormed(es)
    ensures LoadLines([], EntryLines(es)) == es
    decreases |es|
  {
    if es != [] {
      var init := es[..|es| - 1];
      var last := es[|es| - 1];
      assert WellFormed(init);
      LoadEntryLines(init);
      FrontLast(es);
      LoadLastEntry(init, last);
    }
  }

  lemma LoadLastEntry(init: seq<Entry>, last: Entry)
    requires EntryWellFormed(last) && forall j | 0 <= j < |init| :: init[j].key != last.key
    requires LoadLines([], EntryLines(init)) == init
    ensures LoadLines([], EntryLines(init + [last])) == init + [last]
  {
    var lines := EntryLines(init + [last]);
    assert lines[..|lines| - 1] == EntryLines(init);
    ParseEntryLine(last);
    assert ParseLine(lines[|lines| - 1]) == Some(last);
    NoIndex(init, last.key);
  }

  /** Writing well-formed entries and reading the file back gives the same entries. */
  lemma ParseSerialise(es: seq<Entry>)
    requires WellFormed(es)
    ensures ParseEnv(Serialise(es)) == es
  {
    var lines := EntryLines(es);
    if es == [] {
      EmptyFileLines();
      assert Serialise(es) == "\n";
    } else {
      assert Split(Join(lines, "\n"), '\n') == lines by {
        forall i | 0 <= i < |lines| ensures Free(lines[i], '\n') {
          EntryLineFree(es[i]);
        }
        SplitJoin(lines, '\n');
      }
      assert Filter(lines, NonBlankLine()) == lines by {
        forall i | 0 <= i < |lines| ensures NonBlankLine()(lines[i]) {
          EntryLineNonBlank(es[i]);
        }
        FilterKeepsAll(lines, NonBlankLine());
      }
      KeptLinesOfJoin(lines);
      LoadEntryLines(es);
    }
  }

  /** A file holding only a line break has no lines to keep. */
  lemma EmptyFileLines()
    ensures EnvLines("\n") == []
  {
    assert IndexOf("\n", '\n') == 0;
    assert IndexOf("", '\n') == -1;
    assert Split("\n", '\n') == ["", ""];
    assert !NonBlank("");
  }

  /** Joining non-blank single lines, with a final line break, keeps exactly those lines. */
  lemma KeptLinesOfJoin(lines: seq<string>)
    requires Split(Join(lines, "\n"), '\n') == lines
    requires Filter(lines, NonBlankLine()) == lines
    ensures EnvLines(Join(lines, "\n") + "\n") == lines
  {
    TrailingBreak(lines);
    BlankLastDropped(lines);
  }

  lemma TrailingBreak(lines: seq<string>)
    requires Split(Join(lines, "\n"), '\n') == lines
    ensures Split(Join(lines, "\n") + "\n", '\n') == lines + [""]
  {
    SplitTrailing(Join(lines, "\n"), '\n');
  }

  lemma BlankLastDropped(lines: seq<string>)
    requires Filter(lines, NonBlankLine()) == lines
    ensures Filter(lines + [""], NonBlankLine()) == lines
  {
    FilterAppend(lines, "", NonBlankLine());
    assert !NonBlank("");
  }

  lemma LoadNextLine(lines: seq<string>, i: nat)
    requires i < |lines|
    ensures var e := ParseLine(lines[i]);
      LoadLines([], lines[..i + 1]) ==
        if e.Some? then SetEntry(LoadLines([], lines[..i]), e.value.key, e.value.value) else LoadLines([], lines[..i])
  {
    assert lines[..i + 1][..i] == lines[..i];
  }

  /** The `forEach` over the kept lines: each parsed line is `set` on a fresh map. */
  method LoadEnvLines(envLines: seq<string>) returns (envMap: OrderedMap)
    ensures fresh(envMap) && envMap.Valid()
    ensures envMap.entries == LoadLines([], envLines)
  {
    envMap := new OrderedMap();
    var i := 0;
    while i < |envLines|
      invariant 0 <= i <= |envLines|
      invariant envMap.Valid() && envMap.entries == LoadLines([], envLines[..i])
    {
      LoadNextLine(envLines, i);
      var parsed := ParseLine(envLines[i]);
      if parsed.Some? {
        envMap.Set(parsed.value.key, parsed.value.value);
      }
      i := i + 1;
    }
    assert envLines[..i] == envLines;
  }

  /** The text `updateEnvFile` writes, given the file's text (None when it cannot be read)
      and the provided keys (None when undefined). */
  method UpdateEnvFile(existing: Option<string>, openAIKey: Option<string>, anthropicKey: Option<string>)
    returns (newContent: string)
    ensures newContent == Serialise(Merge(ParseEnv(if existing.Some? then existing.value else ""), openAIKey, anthropicKey))
  {
    var envContent := if existing.Some? then existing.value else "";
    var envMap := LoadEnvLines(EnvLines(envContent));
    if openAIKey.Some? {
      envMap.Set(OpenAIKeyName, openAIKey.value);
    }
    if anthropicKey.Some? {
      envMap.Set(AnthropicKeyName, anthropicKey.value);
    }
    newContent := Serialise(envMap.entries);
  }

  /** After a save, the file reads back as the old entries with the overwrites applied, as
      long as every entry is well formed (the provided keys are trimmed and single-line). */
  lemma SaveThenRead(existing: string, openAIKey: Option<string>, anthropicKey: Option<string>)
    requires WellFormed(Merge(ParseEnv(existing), openAIKey, anthropicKey))
    ensures ParseEnv(Serialise(Merge(ParseEnv(existing), openAIKey, anthropicKey))) ==
            Merge(ParseEnv(existing), openAIKey, anthropicKey)
  {
    ParseSerialise(Merge(ParseEnv(existing), openAIKey, anthropicKey));
  }

  // ---------------------------------------------------------------- key masking

  /** What `GET /api/keys` reports for a key: the first 3 characters, "...", and the last 4
      (`slice(-4)`, the whole key when shorter); "" when the key is unset or empty. */
  function Mask(key: Option<string>): (r: string)
    ensures key.None? || key.value == "" ==> r == ""
    ensures key.Some? && key.value != "" ==>
      var k := key.value;
      |r| == (if |k| < 3 then |k| else 3) + 3 + (if |k| < 4 then |k| else 4) &&
      r[..(if |k| < 3 then |k| else 3)] == k[..(if |k| < 3 then |k| else 3)] &&
      r[(if |k| < 3 then |k| else 3)..(if |k| < 3 then |k| else 3) + 3] == "..." &&
      r[|r| - (if |k| < 4 then |k| else 4)..] == k[|k| - (if |k| < 4 then |k| else 4)..]
  {
    if key.None? || key.value == "" then ""
    else
      var k := key.value;
      var head := if |k| < 3 then k else k[..3];
      var tail := if |k| < 4 then k else k[|k| - 4..];
      head + "..." + tail
  }

  /** Rebuild a key of known length from its mask, when the two visible ends cover it. */
  function Unmask(m: string, n: nat): string
    requires n <= |m|
  {
    if n <= 3 then m[..n] else m[..3] + m[|m| - (n - 3)..]
  }

  /** A key of at most 7 characters is disclosed in full by its mask. */
  lemma ShortKeyDisclosed(k: string)
    requires 0 < |k| <= 7
    ensures |k| <= |Mask(Some(k))| && Unmask(Mask(Some(k)), |k|) == k
  {
    var m := Mask(Some(k));
    if |k| > 3 {
      var t := if |k| < 4 then |k| else 4;
      assert m[|m| - t..] == k[|k| - t..];
      assert m[|m| - (|k| - 3)..] == k[3..];
      assert k[..3] + k[3..] == k;
    }
  }

  /** A longer key's mask depends only on its first 3 and last 4 characters: keys that agree
      there cannot be told apart, whatever their middle. */
  lemma LongKeyMiddleHidden(k1: string, k2: string)
    requires |k1| >= 4 && |k2| >= 4
    requires k1[..3] == k2[..3] && k1[|k1| - 4..] == k2[|k2| - 4..]
    ensures Mask(Some(k1)) == Mask(Some(k2))
  {
  }

  // ---------------------------------------------------------------- request bodies

  /** The database statements the handlers issue after their checks. */
  datatype Statement =
    | UpdatePriority(taskId: string, priority: Value)
    | DeleteMany(taskIds: seq<Value>)

  const ValidPriorities: seq<Value> := [Str("high"), Str("medium"), Str("low")]

  /** `PUT /api/tasks/:taskId/priority`: a 400 reply, or the update. The body is the parsed
      JSON object or array. */
  function PriorityRequest(taskId: string, body: Value): (r: Result<Statement, string>)
    requires Readable(body)
    ensures r.Failure? <==> Field(body, "priority") !in ValidPriorities
    ensures r.Failure? ==> r.error == "Invalid priority value"
    ensures r.Success? ==> r.value == UpdatePriority(taskId, Field(body, "priority"))
    ensures r.Success? ==> r.value.priority in ValidPriorities
  {
    var priority := Field(body, "priority");
    if priority !in ValidPriorities then Failure("Invalid priority value")
    else Success(UpdatePriority(taskId, priority))
  }

  /** `POST /api/tasks/delete`: `taskIds` must be a non-empty array. */
  function BulkDeleteRequest(body: Value): (r: Result<Statement, string>)
    requires Readable(body)
    ensures r.Failure? <==> !Field(body, "taskIds").Arr? || Field(body, "taskIds").items == []
    ensures r.Failure? ==> r.error == "Invalid task IDs provided"
    ensures r.Success? ==> r.value == DeleteMany(Field(body, "taskIds").items) && r.value.taskIds != []
  {
    var ids := Field(body, "taskIds");
    if !ids.Arr? || |ids.items| == 0 then Failure("Invalid task IDs provided")
    else Success(DeleteMany(ids.items))
  }

  /** The values inserted for one created task. */
  datatype Row = Row(title: Value, description: Value, priority: Value, estimatedTime: Value, status: Value)

  /** The destructuring of one item; `status` defaults to "todo" only when undefined. */
  function RowOf(task: Value): Row
    requires Readable(task)
  {
    var status := Field(task, "status");
    Row(Field(task, "title"), Field(task, "description"), Field(task, "priority"),
        Field(task, "estimatedTime"), if status.Undefined? then Str("todo") else status)
  }

  /** `POST /api/tasks` accepts a list or a single item. */
  function CreateItems(body: Value): (r: seq<Value>)
    ensures body.Arr? ==> r == body.items
    ensures !body.Arr? ==> r == [body]
  {
    if body.Arr? then body.items else [body]
  }

  /** Destructuring null or undefined throws, which aborts the whole creation. */
  datatype CreateError = CannotDestructure(index: nat)

  /** The rows of a create request in input order, built item by item; a null item stops
      the loop with the error (and the transaction rolls back). */
  method NormaliseCreate(body: Value) returns (r: Result<seq<Row>, CreateError>)
    ensures var items := CreateItems(body);
      (r.Success? <==> forall i | 0 <= i < |items| :: Readable(items[i])) &&
      (r.Success? ==> |r.value| == |items| && forall i | 0 <= i < |items| :: r.value[i] == RowOf(items[i])) &&
      (r.Failure? ==> var n := r.error.index;
         n < |items| && !Readable(items[n]) && forall i | 0 <= i < n :: Readable(items[i]))
  {
    var tasks := CreateItems(body);
    var results: seq<Row> := [];
    var i := 0;
    while i < |tasks|
      invariant 0 <= i <= |tasks|
      invariant |results| == i
      invariant forall j | 0 <= j < i :: Readable(tasks[j]) && results[j] == RowOf(tasks[j])
    {
      if !Readable(tasks[i]) {
        return Failure(CannotDestructure(i));
      }
      results := results + [RowOf(tasks[i])];
      i := i + 1;
    }
    return Success(results);
  }

  /** A single object body is created as a one-item list, with "todo" when it has no status. */
  lemma SingleObjectCreate(fields: map<string, Value>)
    ensures CreateItems(Obj(fields)) == [Obj(fields)]
    ensures "status" !in fields ==> RowOf(Obj(fields)).status == Str("todo")
    ensures "status" in fields && !fields["status"].Undefined? ==> RowOf(Obj(fields)).status == fields["status"]
  {
  }
}
