/** The generic JSON-to-Markdown serialiser of the analyst tools: scalars in
    backticks, strings with their Markdown emphasis characters escaped, arrays
    as bullet lists and objects as bold-keyed lines, both indented two spaces
    per nesting level. */
module JsonMarkdown {
  import opened Wrappers
  import opened Strings
  import opened Lines

  /** A value as `json.loads` yields it, with integer numbers only; an object
      is its entries in insertion order, as a Python `dict` iterates them. */
  datatype Json =
    | JNull
    | JBool(b: bool)
    | JInt(i: int)
    | JString(s: string)
    | JArray(items: seq<Json>)
    | JObject(entries: seq<(string, Json)>)
  {
    predicate IsScalar() {
      !JArray? && !JObject?
    }
  }

  // ---------------------------------------------------------------------
  // Escaping

  /** The characters escaped in string values and in object keys: keys leave
      the backtick alone. */
  const ValueSpecials: set<char> := {'*', '_', '`'}
  const KeySpecials: set<char> := {'*', '_'}

  /** Reference escaping: one backslash before each special character, every
      other character copied. */
  function Escape(s: string, specials: set<char>): string {
    if s == [] then []
    else (if s[0] in specials then ['\\', s[0]] else [s[0]]) + Escape(s[1..], specials)
  }

  /** A string value, escaped by three successive `str.replace` calls. */
  function EscapeValue(s: string): string {
    Replace(Replace(Replace(s, '*', "\\*"), '_', "\\_"), '`', "\\`")
  }

  /** An object key, escaped by two successive `str.replace` calls. */
  function EscapeKey(k: string): string {
    Replace(Replace(k, '*', "\\*"), '_', "\\_")
  }

  lemma {:induction false} EscapeNothing(s: string)
    ensures Escape(s, {}) == s
    decreases |s|
  {
    if s != [] {
      EscapeNothing(s[1..]);
      assert s == [s[0]] + s[1..];
    }
  }

  /** One more `replace(c, "\\" + c)` on an escaped string escapes `c` as
      well: the backslashes inserted so far are never `c`. */
  lemma {:induction false} ReplaceAddsSpecial(s: string, specials: set<char>, c: char)
    requires c != '\\' && c !in specials
    ensures Replace(Escape(s, specials), c, ['\\', c]) == Escape(s, specials + {c})
    decreases |s|
  {
    if s != [] {
      var head := if s[0] in specials then ['\\', s[0]] else [s[0]];
      ReplaceAppend(head, Escape(s[1..], specials), c, ['\\', c]);
      ReplaceAddsSpecial(s[1..], specials, c);
      if s[0] in specials {
        assert Replace(head, c, ['\\', c]) == head by {
          assert head[1..] == [s[0]];
          assert head[1..][1..] == [];
        }
      } else {
        assert head[1..] == [];
      }
    }
  }

  /** The chained replacements in the source are the per-character escape. */
  lemma EscapeValueIsEscape(s: string)
    ensures EscapeValue(s) == Escape(s, ValueSpecials)
  {
    EscapeNothing(s);
    ReplaceAddsSpecial(s, {}, '*');
    ReplaceAddsSpecial(s, {'*'}, '_');
    ReplaceAddsSpecial(s, {'*', '_'}, '`');
    assert {} + {'*'} == {'*'};
    assert {'*'} + {'_'} == {'*', '_'};
    assert {'*', '_'} + {'`'} == ValueSpecials;
  }

  lemma EscapeKeyIsEscape(k: string)
    ensures EscapeKey(k) == Escape(k, KeySpecials)
  {
    EscapeNothing(k);
    ReplaceAddsSpecial(k, {}, '*');
    ReplaceAddsSpecial(k, {'*'}, '_');
    assert {} + {'*'} == {'*'};
    assert {'*'} + {'_'} == KeySpecials;
  }

  /** Number of characters of `s` that are in `specials`. */
  function CountIn(s: string, specials: set<char>): nat {
    if s == [] then 0 else (if s[0] in specials then 1 else 0) + CountIn(s[1..], specials)
  }

  /** Escaping adds exactly one character per special character. */
  lemma {:induction false} EscapeLength(s: string, specials: set<char>)
    ensures |Escape(s, specials)| == |s| + CountIn(s, specials)
    decreases |s|
  {
    if s != [] {
      EscapeLength(s[1..], specials);
    }
  }

  /** Reading an escaped string back: a backslash followed by a special
      character stands for that character; everything else is itself. */
  function Unescape(s: string, specials: set<char>): string
    decreases |s|
  {
    if s == [] then []
    else if |s| >= 2 && s[0] == '\\' && s[1] in specials then [s[1]] + Unescape(s[2..], specials)
    else [s[0]] + Unescape(s[1..], specials)
  }

  /** An escaped string never starts with a special character: it starts with
      the inserted backslash or with an ordinary character. */
  lemma EscapeHead(s: string, specials: set<char>)
    requires '\\' !in specials
    ensures Escape(s, specials) == [] || Escape(s, specials)[0] !in specials
  {
  }

  /** Unescaping undoes escaping, for any set of specials that does not
      contain the backslash itself (true of both sets the serialiser uses). */
  lemma {:induction false} UnescapeEscape(s: string, specials: set<char>)
    requires '\\' !in specials
    ensures Unescape(Escape(s, specials), specials) == s
    decreases |s|
  {
    if s != [] {
      var rest := Escape(s[1..], specials);
      UnescapeEscape(s[1..], specials);
      EscapeHead(s[1..], specials);
      var e := Escape(s, specials);
      if s[0] in specials {
        assert e == ['\\', s[0]] + rest;
        assert e[2..] == rest;
      } else {
        assert e == [s[0]] + rest;
        assert e[1..] == rest;
      }
      assert s == [s[0]] + s[1..];
    }
  }

  /** Escaping a string value changes only the three specials: every `*`, `_`
      and backtick gets one backslash, the length grows by their number, and
      unescaping restores the original. */
  lemma EscapeValueSpec(s: string)
    ensures EscapeValue(s) == Escape(s, ValueSpecials)
    ensures |EscapeValue(s)| == |s| + CountIn(s, ValueSpecials)
    ensures Unescape(EscapeValue(s), ValueSpecials) == s
  {
    EscapeValueIsEscape(s);
    EscapeLength(s, ValueSpecials);
    UnescapeEscape(s, ValueSpecials);
  }

  /** Keys escape only `*` and `_`: a backtick in a key is copied as is, and
      unescaping the key set restores the key. */
  lemma EscapeKeySpec(k: string)
    ensures EscapeKey(k) == Escape(k, KeySpecials)
    ensures |EscapeKey(k)| == |k| + CountIn(k, KeySpecials)
    ensures Unescape(EscapeKey(k), KeySpecials) == k
    ensures EscapeKey("`") == "`"
  {
    EscapeKeyIsEscape(k);
    EscapeKeyIsEscape("`");
    EscapeLength(k, KeySpecials);
    UnescapeEscape(k, KeySpecials);
  }

  /** Escaping never introduces a newline, nor removes one. */
  lemma {:induction false} EscapeNewline(s: string, specials: set<char>)
    requires '\n' !in specials
    ensures '\n' in Escape(s, specials) <==> '\n' in s
    decreases |s|
  {
    if s != [] {
      EscapeNewline(s[1..], specials);
      assert s == [s[0]] + s[1..];
    }
  }

  // ---------------------------------------------------------------------
  // Rendering

  /** `"  " * depth` */
  function Indent(depth: nat): (r: string)
    ensures |r| == 2 * depth
    ensures forall i :: 0 <= i < |r| ==> r[i] == ' '
  {
    if depth == 0 then "" else "  " + Indent(depth - 1)
  }

  /** `_convert_value(value, depth)` */
  function ConvertValue(v: Json, depth: nat): string
    decreases v, 1
  {
    match v
    case JNull => "`null`"
    case JBool(b) => if b then "`true`" else "`false`"
    case JInt(i) => "`" + IntToString(i) + "`"
    case JString(s) => EscapeValue(s)
    case JArray(items) =>
      if items == [] then "*(empty array)*" else "\n" + ArrayLines(v, 0, depth)
    case JObject(entries) =>
      if entries == [] then "*(empty object)*" else "\n" + ObjectLines(v, 0, depth)
  }

  /** The bullet lines of the array items from index `from` on. */
  function ArrayLines(v: Json, from: nat, depth: nat): string
    requires v.JArray? && from <= |v.items|
    decreases v, 0, |v.items| - from
  {
    if from == |v.items| then ""
    else Indent(depth) + "- " + ConvertValue(v.items[from], depth + 1) + "\n"
         + ArrayLines(v, from + 1, depth)
  }

  /** The bold-key lines of the object entries from index `from` on. */
  function ObjectLines(v: Json, from: nat, depth: nat): string
    requires v.JObject? && from <= |v.entries|
    decreases v, 0, |v.entries| - from
  {
    if from == |v.entries| then ""
    else
      var (key, value) := v.entries[from];
      Indent(depth) + "**" + EscapeKey(key) + "**: " + ConvertValue(value, depth + 1) + "\n"
      + ObjectLines(v, from + 1, depth)
  }

  /** `json_to_markdown(data)`, with the clock reading passed in. */
  function JsonToMarkdown(data: Json, generatedOn: string): string {
    "*Generated on: " + generatedOn + "*\n\n" + ConvertValue(data, 0)
  }

  // ---------------------------------------------------------------------
  // Reading rendered values back

  /** `"-" + digits` or `digits`, as `int()` reads them. */
  function ParseInt(s: string): Option<int> {
    if |s| >= 2 && s[0] == '-' && forall i :: 1 <= i < |s| ==> IsDigit(s[i]) then
      Some(0 - ParseDigits(s[1..]))
    else if |s| >= 1 && forall i :: 0 <= i < |s| ==> IsDigit(s[i]) then
      Some(ParseDigits(s))
    else None
  }

  lemma ParseIntToString(i: int)
    ensures ParseInt(IntToString(i)) == Some(i)
  {
    var r := IntToString(i);
    if i < 0 {
      assert r[1..] == NatToString(-i);
      ParseNatToString(-i);
    } else {
      ParseNatToString(i);
    }
  }

  /** The partner of `ConvertValue` on scalars: which scalar a rendering
      stands for. Backtick-wrapped texts are null, booleans and integers; an
      escaped string never starts with a backtick, so everything else is a
      string. */
  function ParseScalar(s: string): Json {
    if s == "`null`" then JNull
    else if s == "`true`" then JBool(true)
    else if s == "`false`" then JBool(false)
    else if |s| >= 2 && s[0] == '`' && s[|s| - 1] == '`' && ParseInt(s[1..|s| - 1]).Some? then
      JInt(ParseInt(s[1..|s| - 1]).value)
    else JString(Unescape(s, ValueSpecials))
  }

  /** Every scalar is recovered from its rendering: null, the booleans and
      the integers are told apart (a boolean never renders as a number) and
      strings come back unescaped. */
  lemma ParseConvertScalar(v: Json, depth: nat)
    requires v.IsScalar()
    ensures ParseScalar(ConvertValue(v, depth)) == v
  {
    match v
    case JNull =>
    case JBool(b) =>
    case JInt(i) => ParseConvertInt(i, depth);
    case JString(s) => ParseConvertString(s, depth);
  }

  lemma ParseConvertInt(i: int, depth: nat)
    ensures ParseScalar(ConvertValue(JInt(i), depth)) == JInt(i)
  {
    var r := ConvertValue(JInt(i), depth);
    var t := IntToString(i);
    assert r[1..|r| - 1] == t;
    ParseIntToString(i);
    assert r[1] == t[0];
    assert r != "`null`" && r != "`true`" && r != "`false`" by {
      assert IsDigit(t[0]) || t[0] == '-' by {
        if i >= 0 {
          assert t == NatToString(i);
        }
      }
    }
  }

  lemma ParseConvertString(s: string, depth: nat)
    ensures ParseScalar(ConvertValue(JString(s), depth)) == JString(s)
  {
    EscapeValueSpec(s);
    EscapeHead(s, ValueSpecials);
  }

  /** Hence different scalars never render the same. */
  lemma ConvertScalarInjective(a: Json, b: Json, depth: nat)
    requires a.IsScalar() && b.IsScalar()
    requires ConvertValue(a, depth) == ConvertValue(b, depth)
    ensures a == b
  {
    ParseConvertScalar(a, depth);
    ParseConvertScalar(b, depth);
  }

  /** A scalar renders on one line unless it is a string holding a newline. */
  predicate OneLineScalar(v: Json) {
    v.IsScalar() && (v.JString? ==> '\n' !in v.s)
  }

  lemma OneLineScalarRendering(v: Json, depth: nat)
    requires OneLineScalar(v)
    ensures NoNewline(ConvertValue(v, depth))
  {
    match v
    case JString(s) =>
      EscapeValueIsEscape(s);
      EscapeNewline(s, ValueSpecials);
    case _ =>
  }

  /** The line of one array item. */
  function ItemLine(item: Json, depth: nat): string {
    Indent(depth) + "- " + ConvertValue(item, depth + 1)
  }

  /** The item lines of the array from index `from` on. */
  function ItemLines(v: Json, from: nat, depth: nat): (ls: seq<string>)
    requires v.JArray? && from <= |v.items|
    ensures |ls| == |v.items| - from
    ensures forall i :: 0 <= i < |ls| ==> ls[i] == ItemLine(v.items[from + i], depth)
    decreases |v.items| - from
  {
    if from == |v.items| then [] else [ItemLine(v.items[from], depth)] + ItemLines(v, from + 1, depth)
  }

  lemma {:induction false} ArrayLinesAsLines(v: Json, from: nat, depth: nat)
    requires v.JArray? && from <= |v.items|
    ensures ArrayLines(v, from, depth) == Unlines(ItemLines(v, from, depth))
    decreases |v.items| - from
  {
    if from < |v.items| {
      ArrayLinesAsLines(v, from + 1, depth);
      var ls := ItemLines(v, from, depth);
      assert ls[1..] == ItemLines(v, from + 1, depth);
    }
  }

  /** A non-empty array renders as an empty first line followed by its item
      lines. */
  lemma ArrayRendering(items: seq<Json>, depth: nat)
    requires items != []
    ensures ConvertValue(JArray(items), depth) == Unlines([""] + ItemLines(JArray(items), 0, depth))
  {
    var v := JArray(items);
    ArrayLinesAsLines(v, 0, depth);
    var ls := [""] + ItemLines(v, 0, depth);
    assert ls[1..] == ItemLines(v, 0, depth);
  }

  /** Reading item lines back: each must start with `prefix`, and the rest
      of it is read as a scalar. */
  function ParseItemLines(ls: seq<string>, prefix: string): Option<seq<Json>> {
    if ls == [] then Some([])
    else if !StartsWith(ls[0], prefix) then None
    else
      match ParseItemLines(ls[1..], prefix)
      case None => None
      case Some(rest) => Some([ParseScalar(ls[0][|prefix|..])] + rest)
  }

  /** Reading a rendered array of one-line scalars back: the empty-array
      marker is the empty array; otherwise the text must be a newline followed
      by one `<indent>- <value>` line per item. */
  function ParseScalarArray(md: string, depth: nat): Option<seq<Json>> {
    if md == "*(empty array)*" then Some([])
    else
      var ls := SplitLines(md);
      if |ls| >= 3 && ls[0] == "" && ls[|ls| - 1] == ""
      then ParseItemLines(ls[1..|ls| - 1], Indent(depth) + "- ")
      else None
  }

  /** The item line of a one-line scalar has no newline and reads back as
      the item. */
  lemma ItemLineRoundTrip(item: Json, depth: nat)
    requires OneLineScalar(item)
    ensures NoNewline(ItemLine(item, depth))
    ensures StartsWith(ItemLine(item, depth), Indent(depth) + "- ")
    ensures ParseScalar(ItemLine(item, depth)[|Indent(depth) + "- "|..]) == item
  {
    var prefix := Indent(depth) + "- ";
    var line := ItemLine(item, depth);
    OneLineScalarRendering(item, depth + 1);
    ParseConvertScalar(item, depth + 1);
    assert line[|prefix|..] == ConvertValue(item, depth + 1);
    assert '\n' !in prefix;
  }

  /** The item lines of an array are its first item's line followed by the
      item lines of the remaining items. */
  lemma ItemLinesCons(items: seq<Json>, depth: nat)
    requires items != []
    ensures ItemLines(JArray(items), 0, depth)
            == [ItemLine(items[0], depth)] + ItemLines(JArray(items[1..]), 0, depth)
  {
    var body := ItemLines(JArray(items), 0, depth);
    var tail := ItemLines(JArray(items[1..]), 0, depth);
    forall i | 0 <= i < |tail|
      ensures body[i + 1] == tail[i]
    {
      assert items[1..][i] == items[i + 1];
    }
  }

  lemma ParseItemLinesCons(line: string, rest: seq<string>, prefix: string, item: Json, items: seq<Json>)
    requires StartsWith(line, prefix) && ParseScalar(line[|prefix|..]) == item
    requires ParseItemLines(rest, prefix) == Some(items)
    ensures ParseItemLines([line] + rest, prefix) == Some([item] + items)
  {
    assert ([line] + rest)[0] == line && ([line] + rest)[1..] == rest;
  }

  lemma {:induction false} ParseItemLinesOf(items: seq<Json>, depth: nat)
    requires forall i :: 0 <= i < |items| ==> OneLineScalar(items[i])
    ensures ParseItemLines(ItemLines(JArray(items), 0, depth), Indent(depth) + "- ") == Some(items)
    ensures AllNoNewline(ItemLines(JArray(items), 0, depth))
    decreases |items|
  {
    if items != [] {
      var prefix := Indent(depth) + "- ";
      var first := ItemLine(items[0], depth);
      var tail := ItemLines(JArray(items[1..]), 0, depth);
      ItemLinesCons(items, depth);
      ItemLineRoundTrip(items[0], depth);
      ParseItemLinesOf(items[1..], depth);
      ParseItemLinesCons(first, tail, prefix, items[0], items[1..]);
      assert [items[0]] + items[1..] == items;
      assert AllNoNewline([first]);
      AllNoNewlineAppend([first], tail);
    }
  }

  /** An array of one-line scalars is recovered, item by item and in order,
      from its rendering at any depth. */
  lemma ScalarArrayRoundTrip(items: seq<Json>, depth: nat)
    requires forall i :: 0 <= i < |items| ==> OneLineScalar(items[i])
    ensures ParseScalarArray(ConvertValue(JArray(items), depth), depth) == Some(items)
  {
    if items != [] {
      var body := ItemLines(JArray(items), 0, depth);
      ParseItemLinesOf(items, depth);
      ArrayRendering(items, depth);
      var md := ConvertValue(JArray(items), depth);
      assert AllNoNewline([""] + body);
      SplitUnlines([""] + body);
      var ls := SplitLines(md);
      assert ls == [""] + body + [""];
      assert ls[1..|ls| - 1] == body;
      assert md != "*(empty array)*" by {
        assert md[0] == '\n';
      }
    }
  }

  // ---------------------------------------------------------------------
  // Reading rendered objects back

  /** What separates a rendered key from its value. */
  const KeySep: string := "**: "

  /** In an escaped string every special character sits right after an
      inserted backslash. */
  lemma {:induction false} EscapePrecedes(s: string, specials: set<char>, j: nat)
    requires '\\' !in specials
    requires 0 < j < |Escape(s, specials)| && Escape(s, specials)[j] in specials
    ensures Escape(s, specials)[j - 1] == '\\'
    decreases |s|
  {
    var head := if s[0] in specials then ['\\', s[0]] else [s[0]];
    var rest := Escape(s[1..], specials);
    assert Escape(s, specials) == head + rest;
    if j >= |head| {
      assert Escape(s, specials)[j] == rest[j - |head|];
      if j - |head| == 0 {
        EscapeHead(s[1..], specials);
      } else {
        EscapePrecedes(s[1..], specials, j - |head|);
        assert Escape(s, specials)[j - 1] == rest[j - |head| - 1];
      }
    }
  }

  /** `KeySep` starts at index `j` of `s`. */
  predicate SepAt(s: string, j: nat) {
    j + |KeySep| <= |s| && s[j..j + |KeySep|] == KeySep
  }

  /** The first index from `from` on where `KeySep` starts. */
  function FindSep(s: string, from: nat): (r: Option<nat>)
    ensures r.Some? ==> from <= r.value && SepAt(s, r.value)
    decreases |s| - from
  {
    if from + |KeySep| > |s| then None
    else if SepAt(s, from) then Some(from)
    else FindSep(s, from + 1)
  }

  lemma {:induction false} FindSepAt(s: string, from: nat, k: nat)
    requires from <= k && SepAt(s, k)
    requires forall j :: from <= j < k ==> !SepAt(s, j)
    ensures FindSep(s, from) == Some(k)
    decreases k - from
  {
    if from < k {
      FindSepAt(s, from + 1, k);
    }
  }

  /** An escaped key holds no separator, not even one that runs into the
      separator written after it: the key's own stars are all escaped. */
  lemma EscapedKeyThenSep(k: string, rest: string)
    ensures var e := EscapeKey(k);
            FindSep(e + KeySep + rest, 0) == Some(|e|)
  {
    var e := EscapeKey(k);
    var s := e + KeySep + rest;
    EscapeKeyIsEscape(k);
    forall j | 0 <= j < |e|
      ensures !SepAt(s, j)
    {
      if SepAt(s, j) {
        var w := s[j..j + |KeySep|];
        assert s[j] == w[0] == '*' && s[j + 1] == w[1] == '*' && s[j + 2] == w[2] == ':';
        if j + 1 < |e| {
          assert e[j + 1] == '*' && e[j] == '*';
          EscapePrecedes(k, KeySpecials, j + 1);
          assert false;
        } else {
          assert false;
        }
      }
    }
    assert SepAt(s, |e|) by {
      assert s[|e|..|e| + |KeySep|] == KeySep;
    }
    FindSepAt(s, 0, |e|);
  }

  /** The line of one object entry. */
  function EntryLine(entry: (string, Json), depth: nat): string {
    Indent(depth) + "**" + EscapeKey(entry.0) + KeySep + ConvertValue(entry.1, depth + 1)
  }

  /** The entry lines of the object from index `from` on. */
  function EntryLines(v: Json, from: nat, depth: nat): (ls: seq<string>)
    requires v.JObject? && from <= |v.entries|
    ensures |ls| == |v.entries| - from
    ensures forall i :: 0 <= i < |ls| ==> ls[i] == EntryLine(v.entries[from + i], depth)
    decreases |v.entries| - from
  {
    if from == |v.entries| then [] else [EntryLine(v.entries[from], depth)] + EntryLines(v, from + 1, depth)
  }

  lemma {:induction false} ObjectLinesAsLines(v: Json, from: nat, depth: nat)
    requires v.JObject? && from <= |v.entries|
    ensures ObjectLines(v, from, depth) == Unlines(EntryLines(v, from, depth))
    decreases |v.entries| - from
  {
    if from < |v.entries| {
      ObjectLinesAsLines(v, from + 1, depth);
      var ls := EntryLines(v, from, depth);
      assert ls[1..] == EntryLines(v, from + 1, depth);
    }
  }

  /** A non-empty object renders as an empty first line followed by one
      bold-key line per entry, in insertion order. */
  lemma ObjectRendering(entries: seq<(string, Json)>, depth: nat)
    requires entries != []
    ensures ConvertValue(JObject(entries), depth) == Unlines([""] + EntryLines(JObject(entries), 0, depth))
  {
    var v := JObject(entries);
    ObjectLinesAsLines(v, 0, depth);
    var ls := [""] + EntryLines(v, 0, depth);
    assert ls[1..] == EntryLines(v, 0, depth);
  }

  /** Reading one entry line back: after `prefix`, the key runs up to the
      first separator and is unescaped; the rest is read as a scalar. */
  function ParseEntryLine(line: string, prefix: string): Option<(string, Json)> {
    if !StartsWith(line, prefix) then None
    else
      var body := line[|prefix|..];
      match FindSep(body, 0)
      case None => None
      case Some(k) =>
        Some((Unescape(body[..k], KeySpecials), ParseScalar(body[k + |KeySep|..])))
  }

  function ParseEntryLines(ls: seq<string>, prefix: string): Option<seq<(string, Json)>> {
    if ls == [] then Some([])
    else
      match (ParseEntryLine(ls[0], prefix), ParseEntryLines(ls[1..], prefix))
      case (Some(e), Some(rest)) => Some([e] + rest)
      case _ => None
  }

  /** Reading a rendered object of one-line entries back: the empty-object
      marker is the empty object; otherwise the text must be a newline
      followed by one entry line per entry. */
  function ParseFlatObject(md: string, depth: nat): Option<seq<(string, Json)>> {
    if md == "*(empty object)*" then Some([])
    else
      var ls := SplitLines(md);
      if |ls| >= 3 && ls[0] == "" && ls[|ls| - 1] == ""
      then ParseEntryLines(ls[1..|ls| - 1], Indent(depth) + "**")
      else None
  }

  /** An entry whose key has no newline and whose value is a one-line scalar. */
  predicate OneLineEntry(entry: (string, Json)) {
    '\n' !in entry.0 && OneLineScalar(entry.1)
  }

  lemma EntryLineRoundTrip(entry: (string, Json), depth: nat)
    requires OneLineEntry(entry)
    ensures NoNewline(EntryLine(entry, depth))
    ensures ParseEntryLine(EntryLine(entry, depth), Indent(depth) + "**") == Some(entry)
  {
    var (key, value) := entry;
    var prefix := Indent(depth) + "**";
    var e := EscapeKey(key);
    var shown := ConvertValue(value, depth + 1);
    var body := e + KeySep + shown;
    assert EntryLine(entry, depth) == prefix + body by {
      ConcatAssoc(prefix, e + KeySep, shown);
      ConcatAssoc(prefix, e, KeySep);
    }
    assert NoNewline(prefix + body) by {
      assert '\n' !in e by {
        EscapeKeySpec(key);
        EscapeNewline(key, KeySpecials);
      }
      assert NoNewline(shown) by { OneLineScalarRendering(value, depth + 1); }
      assert '\n' !in prefix;
    }
    DropPrefix(prefix, body);
    assert FindSep(body, 0) == Some(|e|) by { EscapedKeyThenSep(key, shown); }
    assert Unescape(body[..|e|], KeySpecials) == key by {
      ConcatAssoc(e, KeySep, shown);
      TakePrefix(e, KeySep + shown);
      EscapeKeySpec(key);
    }
    assert ParseScalar(body[|e| + |KeySep|..]) == value by {
      DropPrefix(e + KeySep, shown);
      ParseConvertScalar(value, depth + 1);
    }
  }

  /** The entry lines of an object are its first entry's line followed by
      the entry lines of the remaining entries. */
  lemma EntryLinesCons(entries: seq<(string, Json)>, depth: nat)
    requires entries != []
    ensures EntryLines(JObject(entries), 0, depth)
            == [EntryLine(entries[0], depth)] + EntryLines(JObject(entries[1..]), 0, depth)
  {
    var body := EntryLines(JObject(entries), 0, depth);
    var tail := EntryLines(JObject(entries[1..]), 0, depth);
    forall i | 0 <= i < |tail|
      ensures body[i + 1] == tail[i]
    {
      assert entries[1..][i] == entries[i + 1];
    }
  }

  lemma ParseEntryLinesCons(line: string, rest: seq<string>, prefix: string,
                            e: (string, Json), es: seq<(string, Json)>)
    requires ParseEntryLine(line, prefix) == Some(e)
    requires ParseEntryLines(rest, prefix) == Some(es)
    ensures ParseEntryLines([line] + rest, prefix) == Some([e] + es)
  {
    assert ([line] + rest)[0] == line && ([line] + rest)[1..] == rest;
  }

  lemma {:induction false} ParseEntryLinesOf(entries: seq<(string, Json)>, depth: nat)
    requires forall i :: 0 <= i < |entries| ==> OneLineEntry(entries[i])
    ensures ParseEntryLines(EntryLines(JObject(entries), 0, depth), Indent(depth) + "**") == Some(entries)
    ensures AllNoNewline(EntryLines(JObject(entries), 0, depth))
    decreases |entries|
  {
    if entries != [] {
      var prefix := Indent(depth) + "**";
      var first := EntryLine(entries[0], depth);
      var tail := EntryLines(JObject(entries[1..]), 0, depth);
      EntryLinesCons(entries, depth);
      EntryLineRoundTrip(entries[0], depth);
      ParseEntryLinesOf(entries[1..], depth);
      ParseEntryLinesCons(first, tail, prefix, entries[0], entries[1..]);
      assert [entries[0]] + entries[1..] == entries;
      assert AllNoNewline([first]);
      AllNoNewlineAppend([first], tail);
    }
  }

  /** An object of one-line entries is recovered, keys unescaped and entries
      in insertion order, from its rendering at any depth. */
  lemma FlatObjectRoundTrip(entries: seq<(string, Json)>, depth: nat)
    requires forall i :: 0 <= i < |entries| ==> OneLineEntry(entries[i])
    ensures ParseFlatObject(ConvertValue(JObject(entries), depth), depth) == Some(entries)
  {
    if entries != [] {
      var body := EntryLines(JObject(entries), 0, depth);
      ParseEntryLinesOf(entries, depth);
      ObjectRendering(entries, depth);
      var md := ConvertValue(JObject(entries), depth);
      assert AllNoNewline([""] + body);
      SplitUnlines([""] + body);
      var ls := SplitLines(md);
      assert ls == [""] + body + [""];
      assert ls[1..|ls| - 1] == body;
      assert md != "*(empty object)*" by {
        assert md[0] == '\n';
      }
    }
  }

  /** The document starts with the "Generated on" line and a blank line, and
      the rest of it is exactly the rendering of the data at depth 0. */
  lemma JsonToMarkdownShape(data: Json, generatedOn: string)
    requires NoNewline(generatedOn)
    ensures var ls := SplitLines(JsonToMarkdown(data, generatedOn));
            |ls| >= 3 && ls[0] == "*Generated on: " + generatedOn + "*" && ls[1] == ""
    ensures var head := "*Generated on: " + generatedOn + "*\n\n";
            JsonToMarkdown(data, generatedOn)[|head|..] == ConvertValue(data, 0)
  {
    var header := ["*Generated on: " + generatedOn + "*", ""];
    var rest := ConvertValue(data, 0);
    assert Unlines(header) == "*Generated on: " + generatedOn + "*\n\n" by {
      assert header[1..] == [""];
      assert Unlines([""]) == "" + "\n" + Unlines([]);
      assert Unlines(header) == header[0] + "\n" + "\n";
    }
    SplitUnlinesThen(header, rest);
  }
}
