/** The Markdown blocks the exporters write for each record kind, as lists of
    lines (each `markdown_content += "...\n"` of the source is one line), and
    what a reader of the rendered text can recover from them: the `###`
    headings in record order, and the requirement fields themselves. */
module ReportBlocks {
  import opened Wrappers
  import opened Strings
  import opened Lines
  import opened Records

  const NotAvailable: string := "N/A"

  /** A scalar field as `record.get(key, 'N/A')` shows it. */
  function Field(o: Option<string>): string {
    o.GetOr(NotAvailable)
  }

  /** The first four lines of every report: title, blank line, the
      "Generated on" line, blank line. */
  function Header(title: string, generatedOn: string): seq<string> {
    ["# " + title, "", "Generated on: " + generatedOn, ""]
  }

  // ---------------------------------------------------------------------
  // Python's str() of a list of strings

  function HexDigit(d: nat): char
    requires d < 16
  {
    "0123456789abcdef"[d]
  }

  /** `n` as `width` lower-case hex digits, most significant first. */
  function Hex(n: nat, width: nat): (r: string)
    ensures |r| == width
    decreases width
  {
    if width == 0 then "" else Hex(n / 16, width - 1) + [HexDigit(n % 16)]
  }

  /** The digits `Hex` writes. */
  predicate IsHexDigits(s: string) {
    forall i :: 0 <= i < |s| ==> s[i] in "0123456789abcdef"
  }

  /** The value of a lower-case hex digit (0 for any other character). */
  function HexValue(ch: char): (v: nat)
    ensures v < 16
  {
    if '0' <= ch <= '9' then ch as int - '0' as int
    else if 'a' <= ch <= 'f' then ch as int - 'a' as int + 10
    else 0
  }

  /** A string of hex digits read back as a number, most significant digit
      first: what `int(s, 16)` gives for lower-case digits. */
  function ParseHex(s: string): nat
    decreases |s|
  {
    if s == [] then 0 else ParseHex(s[..|s| - 1]) * 16 + HexValue(s[|s| - 1])
  }

  /** `16` to the power `w`: the numbers `w` hex digits can hold. */
  function Pow16(w: nat): (r: nat)
    ensures r > 0
  {
    if w == 0 then 1 else 16 * Pow16(w - 1)
  }

  lemma HexDigitValue(d: nat)
    requires d < 16
    ensures HexDigit(d) in "0123456789abcdef" && HexValue(HexDigit(d)) == d
  {
  }

  /** `Hex` writes every number that fits its width as hex digits that read
      back as that number. */
  lemma {:induction false} HexReadBack(n: nat, width: nat)
    requires n < Pow16(width)
    ensures IsHexDigits(Hex(n, width)) && ParseHex(Hex(n, width)) == n
    decreases width
  {
    if width > 0 {
      var high := Hex(n / 16, width - 1);
      HexReadBack(n / 16, width - 1);
      HexDigitValue(n % 16);
      var r := Hex(n, width);
      assert r == high + [HexDigit(n % 16)];
      assert r[..|r| - 1] == high;
    }
  }

  /** Space separators other than the space itself, and the line and
      paragraph separators (general categories Zs, Zl, Zp). */
  predicate IsSeparator(c: char) {
    c == '\U{A0}' || c == '\U{1680}' || ('\U{2000}' <= c <= '\U{200A}')
    || c == '\U{2028}' || c == '\U{2029}' || c == '\U{202F}' || c == '\U{205F}'
    || c == '\U{3000}'
  }

  /** Format characters (general category Cf), as of Unicode 15. */
  predicate IsFormat(c: char) {
    c == '\U{AD}' || ('\U{600}' <= c <= '\U{605}') || c == '\U{61C}' || c == '\U{6DD}'
    || c == '\U{70F}' || ('\U{890}' <= c <= '\U{891}') || c == '\U{8E2}' || c == '\U{180E}'
    || ('\U{200B}' <= c <= '\U{200F}') || ('\U{202A}' <= c <= '\U{202E}')
    || ('\U{2060}' <= c <= '\U{2064}') || ('\U{2066}' <= c <= '\U{206F}')
    || c == '\U{FEFF}' || ('\U{FFF9}' <= c <= '\U{FFFB}') || c == '\U{110BD}' || c == '\U{110CD}'
    || ('\U{13430}' <= c <= '\U{1343F}') || ('\U{1BCA0}' <= c <= '\U{1BCA3}')
    || ('\U{1D173}' <= c <= '\U{1D17A}') || c == '\U{E0001}' || ('\U{E0020}' <= c <= '\U{E007F}')
  }

  /** Private-use characters (general category Co). */
  predicate IsPrivateUse(c: char) {
    ('\U{E000}' <= c <= '\U{F8FF}') || ('\U{F0000}' <= c <= '\U{FFFFD}')
    || ('\U{100000}' <= c <= '\U{10FFFD}')
  }

  /** The characters `repr` writes as an escape: controls (Cc) and the
      classes above. Unassigned code points are not in the model. */
  predicate Unprintable(c: char) {
    c < ' ' || ('\U{7F}' <= c <= '\U{9F}') || IsSeparator(c) || IsFormat(c) || IsPrivateUse(c)
  }

  /** One character inside `repr(s)` quoted with `quote`: the short escapes
      first, then `\xhh`, `\uhhhh` or `\Uhhhhhhhh` for an unprintable
      character, by the size of its code point. */
  function ReprChar(c: char, quote: char): string {
    if c == '\\' then "\\\\"
    else if c == quote then ['\\', quote]
    else if c == '\n' then "\\n"
    else if c == '\r' then "\\r"
    else if c == '\t' then "\\t"
    else if Unprintable(c) then
      if c <= '\U{FF}' then "\\x" + Hex(c as int, 2)
      else if c <= '\U{FFFF}' then "\\u" + Hex(c as int, 4)
      else "\\U" + Hex(c as int, 8)
    else [c]
  }

  function ReprBody(s: string, quote: char): string {
    if s == [] then [] else ReprChar(s[0], quote) + ReprBody(s[1..], quote)
  }

  /** `repr(s)`: single quotes unless the text has a single quote and no
      double quote. */
  function ReprString(s: string): string {
    var quote := if '\'' in s && '"' !in s then '"' else '\'';
    [quote] + ReprBody(s, quote) + [quote]
  }

  function ReprItems(xs: seq<string>): string {
    if xs == [] then ""
    else if |xs| == 1 then ReprString(xs[0])
    else ReprString(xs[0]) + ", " + ReprItems(xs[1..])
  }

  /** `str(xs)` for a list of strings, as an f-string prints a list field. */
  function ReprList(xs: seq<string>): string {
    "[" + ReprItems(xs) + "]"
  }

  lemma {:induction false} HexNoNewline(n: nat, width: nat)
    ensures NoNewline(Hex(n, width))
    decreases width
  {
    if width > 0 {
      HexNoNewline(n / 16, width - 1);
      assert HexDigit(n % 16) != '\n';
    }
  }

  lemma ReprCharNoNewline(c: char, quote: char)
    requires quote == '\'' || quote == '"'
    ensures NoNewline(ReprChar(c, quote))
  {
    if c != '\\' && c != quote && c != '\n' && c != '\r' && c != '\t' && Unprintable(c) {
      HexNoNewline(c as int, 2);
      HexNoNewline(c as int, 4);
      HexNoNewline(c as int, 8);
    }
  }

  /** A one-character text whose character is not a quote: the character's
      escape between single quotes. */
  lemma ReprSingle(c: char, escaped: string)
    requires c != '\'' && ReprChar(c, '\'') == escaped
    ensures ReprString([c]) == "'" + escaped + "'"
  {
    assert ReprBody([c], '\'') == escaped + ReprBody([], '\'');
  }

  /** A two-character escape prefix followed by `Hex` digits: the digits
      after the prefix read back as the number. */
  lemma EscapeReadBack(prefix: string, n: nat, width: nat)
    requires |prefix| == 2 && n < Pow16(width)
    ensures var r := prefix + Hex(n, width);
            |r| == 2 + width && r[..2] == prefix && IsHexDigits(r[2..]) && ParseHex(r[2..]) == n
  {
    HexReadBack(n, width);
    var r := prefix + Hex(n, width);
    assert r[..2] == prefix && r[2..] == Hex(n, width);
  }

  /** An unprintable Latin-1 character without a named escape becomes
      `\x` and two hex digits that read back as its code point. */
  lemma ReprCharTwoDigits(c: char)
    requires c <= '\U{FF}' && Unprintable(c) && c != '\n' && c != '\r' && c != '\t'
    ensures var r := ReprChar(c, '\'');
            r == "\\x" + Hex(c as int, 2)
            && |r| == 4 && r[..2] == "\\x" && IsHexDigits(r[2..]) && ParseHex(r[2..]) == c as int
  {
    ReprCharTwoEscape(c);
    EscapeReadBack("\\x", c as int, 2);
  }

  /** The branch of `ReprChar` that picks the `\x` escape. */
  lemma ReprCharTwoEscape(c: char)
    requires c <= '\U{FF}' && Unprintable(c) && c != '\n' && c != '\r' && c != '\t'
    ensures ReprChar(c, '\'') == "\\x" + Hex(c as int, 2)
  {
  }

  /** An unprintable character of the basic plane beyond Latin-1 becomes
      `\u` and four hex digits that read back as its code point. */
  lemma ReprCharFourDigits(c: char)
    requires '\U{FF}' < c <= '\U{FFFF}' && Unprintable(c)
    ensures var r := ReprChar(c, '\'');
            r == "\\u" + Hex(c as int, 4)
            && |r| == 6 && r[..2] == "\\u" && IsHexDigits(r[2..]) && ParseHex(r[2..]) == c as int
  {
    ReprCharFourEscape(c);
    EscapeReadBack("\\u", c as int, 4);
  }

  /** The branch of `ReprChar` that picks the `\u` escape. */
  lemma ReprCharFourEscape(c: char)
    requires '\U{FF}' < c <= '\U{FFFF}' && Unprintable(c)
    ensures ReprChar(c, '\'') == "\\u" + Hex(c as int, 4)
  {
  }

  /** An unprintable character beyond the basic plane becomes `\U` and
      eight hex digits that read back as its code point. */
  lemma ReprCharEightDigits(c: char)
    requires '\U{FFFF}' < c && Unprintable(c)
    ensures var r := ReprChar(c, '\'');
            r == "\\U" + Hex(c as int, 8)
            && |r| == 10 && r[..2] == "\\U" && IsHexDigits(r[2..]) && ParseHex(r[2..]) == c as int
  {
    ReprCharEightEscape(c);
    EscapeReadBack("\\U", c as int, 8);
  }

  /** The branch of `ReprChar` that picks the `\U` escape. */
  lemma ReprCharEightEscape(c: char)
    requires '\U{FFFF}' < c && Unprintable(c)
    ensures ReprChar(c, '\'') == "\\U" + Hex(c as int, 8)
  {
  }

  /** One more hex digit: `n` is `high` followed by the digit `low`. */
  lemma HexAppend(n: nat, width: nat, high: nat, low: nat, digits: string)
    requires width > 0 && low < 16 && n == high * 16 + low
    requires Hex(high, width - 1) == digits
    ensures Hex(n, width) == digits + [HexDigit(low)]
  {
    assert n / 16 == high && n % 16 == low;
  }

  lemma HexLineSeparator()
    ensures Hex(0x2028, 4) == "2028"
  {
    HexAppend(0x2, 1, 0, 2, "");
    HexAppend(0x20, 2, 0x2, 0, "2");
    HexAppend(0x202, 3, 0x20, 2, "20");
    HexAppend(0x2028, 4, 0x202, 8, "202");
  }

  lemma ReprCharLineSeparator()
    ensures ReprChar('\U{2028}', '\'') == "\\u2028"
  {
    HexLineSeparator();
    assert IsSeparator('\U{2028}');
    ReprCharFourDigits('\U{2028}');
  }

  /** A line separator is escaped as `\u2028`. */
  lemma ReprLineSeparator()
    ensures ReprString("\U{2028}") == "'\\u2028'"
  {
    ReprCharLineSeparator();
    ReprSingle('\U{2028}', "\\u2028");
  }

  lemma HexZeroWidthSpace()
    ensures Hex(0x200B, 4) == "200b"
  {
    HexAppend(0x2, 1, 0, 2, "");
    HexAppend(0x20, 2, 0x2, 0, "2");
    HexAppend(0x200, 3, 0x20, 0, "20");
    HexAppend(0x200B, 4, 0x200, 11, "200");
  }

  lemma ReprCharZeroWidthSpace()
    ensures ReprChar('\U{200B}', '\'') == "\\u200b"
  {
    HexZeroWidthSpace();
    assert IsFormat('\U{200B}');
    ReprCharFourDigits('\U{200B}');
  }

  /** A zero-width space, a format character, is escaped as `\u200b`. */
  lemma ReprZeroWidthSpace()
    ensures ReprString("\U{200B}") == "'\\u200b'"
  {
    ReprCharZeroWidthSpace();
    ReprSingle('\U{200B}', "\\u200b");
  }

  /** A printable non-ASCII letter is kept as it is. */
  lemma ReprPrintableKept()
    ensures ReprString("\U{E9}") == "'\U{E9}'"
  {
    assert !Unprintable('\U{E9}');
    ReprSingle('\U{E9}', "\U{E9}");
  }

  lemma {:induction false} ReprBodyNoNewline(s: string, quote: char)
    requires quote == '\'' || quote == '"'
    ensures NoNewline(ReprBody(s, quote))
    decreases |s|
  {
    if s != [] {
      ReprCharNoNewline(s[0], quote);
      ReprBodyNoNewline(s[1..], quote);
    }
  }

  lemma {:induction false} ReprItemsNoNewline(xs: seq<string>)
    ensures NoNewline(ReprItems(xs))
    decreases |xs|
  {
    if xs != [] {
      ReprBodyNoNewline(xs[0], if '\'' in xs[0] && '"' !in xs[0] then '"' else '\'');
      ReprItemsNoNewline(xs[1..]);
    }
  }

  /** A printed list is always one line: newlines inside items are escaped. */
  lemma ReprListNoNewline(xs: seq<string>)
    ensures NoNewline(ReprList(xs))
  {
    ReprItemsNoNewline(xs);
  }

  /** A list field as `record.get(key, 'N/A')` prints it. */
  function ListField(o: Option<seq<string>>): string {
    match o
    case Some(xs) => ReprList(xs)
    case None => NotAvailable
  }

  // ---------------------------------------------------------------------
  // Blocks

  const IdLabel: string := "- **ID**: "
  const SourceLabel: string := "- **Source**: "
  const TypeLabel: string := "- **Type**: "
  const DetailLabel: string := "- **Detail**: "
  const CoveredLabel: string := "- **Covered USR**: "

  function RequirementLines(r: Requirement): seq<string> {
    [ "### " + r.name.GetOr("Unnamed Requirement"), "",
      IdLabel + Field(r.id),
      SourceLabel + Field(r.source),
      TypeLabel + Field(r.kind),
      DetailLabel + Field(r.detail),
      CoveredLabel + Field(r.coveredUsr), "" ]
  }

  function RequirementsBlock(rs: seq<Requirement>): seq<string> {
    if rs == [] then [] else RequirementLines(rs[0]) + RequirementsBlock(rs[1..])
  }

  function Bullets(xs: seq<string>): seq<string> {
    if xs == [] then [] else ["- " + xs[0]] + Bullets(xs[1..])
  }

  function InteractionLines(xs: seq<Interaction>): seq<string> {
    if xs == [] then []
    else [ "- **Target**: " + Field(xs[0].target),
           "  - **Type**: " + Field(xs[0].interactionType),
           "  - **Description**: " + Field(xs[0].description) ]
         + InteractionLines(xs[1..])
  }

  /** A `####` subsection: title, blank line, body, blank line. */
  function Subsection(title: string, body: seq<string>): seq<string> {
    ["#### " + title, ""] + body + [""]
  }

  /** A `####` subsection listing the items of a list field, when present. */
  function ListSubsection(title: string, o: Option<seq<string>>): seq<string> {
    if o.Some? then Subsection(title, Bullets(o.value)) else []
  }

  function InteractionsSubsection(o: Option<seq<Interaction>>): seq<string> {
    if o.Some? then Subsection("Interactions", InteractionLines(o.value)) else []
  }

  function ActorFields(a: Actor): seq<string> {
    [ "### " + a.name.GetOr("Unnamed Actor"), "",
      "- **ID**: " + Field(a.id),
      "- **Role**: " + Field(a.role), "" ]
  }

  function ActorLines(a: Actor): seq<string> {
    ActorFields(a)
    + ListSubsection("Responsibilities", a.responsibilities)
    + ListSubsection("Permissions", a.permissions)
    + InteractionsSubsection(a.interactions)
  }

  function ActorsBlock(xs: seq<Actor>): seq<string> {
    if xs == [] then [] else ActorLines(xs[0]) + ActorsBlock(xs[1..])
  }

  /** A `###` subsection holding one free-text value, when present. */
  function TextSubsection(title: string, o: Option<string>): seq<string> {
    if o.Some? then ["### " + title, "", o.value, ""] else []
  }

  /** The two optional closing subsections, after all actors. */
  function ActorsTrailer(out: ActorsOutput): seq<string> {
    TextSubsection("Actor Hierarchy", out.actorHierarchy)
    + TextSubsection("Stakeholder Summary", out.stakeholderSummary)
  }

  function ActorsSection(out: ActorsOutput): seq<string> {
    ActorsBlock(out.actors.GetOr([])) + ActorsTrailer(out)
  }

  function DataObjectLines(o: DataObject): seq<string> {
    [ "### " + o.name.GetOr("Unnamed Object"), "",
      "- **ID**: " + Field(o.id),
      "- **Description**: " + Field(o.description), "" ]
  }

  function DataObjectsBlock(xs: seq<DataObject>): seq<string> {
    if xs == [] then [] else DataObjectLines(xs[0]) + DataObjectsBlock(xs[1..])
  }

  /** A use case; `unnamed` is the name shown when the record has none (the
      two exporters disagree on it). List fields are printed whole, and the
      postconditions come before the preconditions. */
  function UseCaseLines(u: UseCase, unnamed: string): seq<string> {
    [ "### " + u.name.GetOr(unnamed), "",
      "- **ID**: " + Field(u.id),
      "- **Actor**: " + ListField(u.actors),
      "- **Description**: " + Field(u.description), "",
      "- **Postconditions**: " + ListField(u.postconditions), "",
      "- **Preconditions**: " + ListField(u.preconditions), "" ]
  }

  function UseCasesBlock(xs: seq<UseCase>, unnamed: string): seq<string> {
    if xs == [] then [] else UseCaseLines(xs[0], unnamed) + UseCasesBlock(xs[1..], unnamed)
  }

  // ---------------------------------------------------------------------
  // Names shown as headings

  function RequirementNames(rs: seq<Requirement>): seq<string> {
    if rs == [] then [] else [rs[0].name.GetOr("Unnamed Requirement")] + RequirementNames(rs[1..])
  }

  function ActorNames(xs: seq<Actor>): seq<string> {
    if xs == [] then [] else [xs[0].name.GetOr("Unnamed Actor")] + ActorNames(xs[1..])
  }

  function DataObjectNames(xs: seq<DataObject>): seq<string> {
    if xs == [] then [] else [xs[0].name.GetOr("Unnamed Object")] + DataObjectNames(xs[1..])
  }

  function UseCaseNames(xs: seq<UseCase>, unnamed: string): seq<string> {
    if xs == [] then [] else [xs[0].name.GetOr(unnamed)] + UseCaseNames(xs[1..], unnamed)
  }

  // ---------------------------------------------------------------------
  // Which texts keep the document's line structure

  predicate PlainOpt(o: Option<string>) {
    o.Some? ==> NoNewline(o.value)
  }

  predicate PlainList(o: Option<seq<string>>) {
    o.Some? ==> AllNoNewline(o.value)
  }

  /** A line that is neither a `##` nor a `###` heading. */
  predicate NotHeading(line: string) {
    !StartsWith(line, H2) && !StartsWith(line, H3)
  }

  /** A value printed on a line of its own: one line, and not a heading. */
  predicate Standalone(s: string) {
    NoNewline(s) && NotHeading(s)
  }

  predicate PlainRequirement(r: Requirement) {
    PlainOpt(r.id) && PlainOpt(r.name) && PlainOpt(r.source) && PlainOpt(r.kind)
    && PlainOpt(r.detail) && PlainOpt(r.coveredUsr)
  }

  predicate PlainInteraction(x: Interaction) {
    PlainOpt(x.target) && PlainOpt(x.interactionType) && PlainOpt(x.description)
  }

  predicate PlainActor(a: Actor) {
    PlainOpt(a.id) && PlainOpt(a.name) && PlainOpt(a.role)
    && PlainList(a.responsibilities) && PlainList(a.permissions)
    && (a.interactions.Some? ==> forall i :: 0 <= i < |a.interactions.value| ==> PlainInteraction(a.interactions.value[i]))
  }

  predicate PlainActors(out: ActorsOutput) {
    (out.actors.Some? ==> forall i :: 0 <= i < |out.actors.value| ==> PlainActor(out.actors.value[i]))
    && (out.actorHierarchy.Some? ==> Standalone(out.actorHierarchy.value))
    && (out.stakeholderSummary.Some? ==> Standalone(out.stakeholderSummary.value))
  }

  predicate PlainDataObject(o: DataObject) {
    PlainOpt(o.id) && PlainOpt(o.name) && PlainOpt(o.description)
  }

  predicate PlainUseCase(u: UseCase) {
    PlainOpt(u.id) && PlainOpt(u.name) && PlainOpt(u.description)
  }

  // ---------------------------------------------------------------------
  // Blocks of plain records are newline-free lines

  predicate PlainRequirements(rs: seq<Requirement>) {
    forall i :: 0 <= i < |rs| ==> PlainRequirement(rs[i])
  }

  predicate PlainDataObjects(xs: seq<DataObject>) {
    forall i :: 0 <= i < |xs| ==> PlainDataObject(xs[i])
  }

  predicate PlainUseCases(xs: seq<UseCase>) {
    forall i :: 0 <= i < |xs| ==> PlainUseCase(xs[i])
  }

  /** A labelled line is newline-free when its label, its value and the
      value shown for a missing field are. */
  lemma LabelledPlain(prefix: string, o: Option<string>, missing: string)
    requires NoNewline(prefix) && NoNewline(missing) && PlainOpt(o)
    ensures NoNewline(prefix + o.GetOr(missing))
  {
  }

  lemma RequirementLinesPlain(r: Requirement)
    requires PlainRequirement(r)
    ensures AllNoNewline(RequirementLines(r))
  {
    var l0 := "### " + r.name.GetOr("Unnamed Requirement");
    var l2 := IdLabel + Field(r.id);
    var l3 := SourceLabel + Field(r.source);
    var l4 := TypeLabel + Field(r.kind);
    var l5 := DetailLabel + Field(r.detail);
    var l6 := CoveredLabel + Field(r.coveredUsr);
    assert NoNewline(l0) by { LabelledPlain("### ", r.name, "Unnamed Requirement"); }
    assert NoNewline(l2) by { assert NoNewline(NotAvailable); assert NoNewline(IdLabel); LabelledPlain(IdLabel, r.id, NotAvailable); }
    assert NoNewline(l3) by { assert NoNewline(NotAvailable); assert NoNewline(SourceLabel); LabelledPlain(SourceLabel, r.source, NotAvailable); }
    assert NoNewline(l4) by { assert NoNewline(NotAvailable); assert NoNewline(TypeLabel); LabelledPlain(TypeLabel, r.kind, NotAvailable); }
    assert NoNewline(l5) by { assert NoNewline(NotAvailable); assert NoNewline(DetailLabel); LabelledPlain(DetailLabel, r.detail, NotAvailable); }
    assert NoNewline(l6) by { assert NoNewline(NotAvailable); assert NoNewline(CoveredLabel); LabelledPlain(CoveredLabel, r.coveredUsr, NotAvailable); }
    EightPlainLines(l0, "", l2, l3, l4, l5, l6, "");
  }

  /** Eight newline-free lines, as a requirement's block has. */
  lemma EightPlainLines(a: string, b: string, c: string, d: string, e: string, f: string, g: string, h: string)
    requires NoNewline(a) && NoNewline(b) && NoNewline(c) && NoNewline(d)
    requires NoNewline(e) && NoNewline(f) && NoNewline(g) && NoNewline(h)
    ensures AllNoNewline([a, b, c, d, e, f, g, h])
  {
  }

  lemma DataObjectLinesPlain(o: DataObject)
    requires PlainDataObject(o)
    ensures AllNoNewline(DataObjectLines(o))
  {
    LabelledPlain("### ", o.name, "Unnamed Object");
    LabelledPlain("- **ID**: ", o.id, NotAvailable);
    LabelledPlain("- **Description**: ", o.description, NotAvailable);
  }

  lemma ActorFieldsPlain(a: Actor)
    requires PlainActor(a)
    ensures AllNoNewline(ActorFields(a))
  {
    LabelledPlain("### ", a.name, "Unnamed Actor");
    LabelledPlain("- **ID**: ", a.id, NotAvailable);
    LabelledPlain("- **Role**: ", a.role, NotAvailable);
  }

  lemma {:induction false} RequirementsBlockPlain(rs: seq<Requirement>)
    requires PlainRequirements(rs)
    ensures AllNoNewline(RequirementsBlock(rs))
    decreases |rs|
  {
    if rs != [] {
      RequirementLinesPlain(rs[0]);
      RequirementsBlockPlain(rs[1..]);
      AllNoNewlineAppend(RequirementLines(rs[0]), RequirementsBlock(rs[1..]));
    }
  }

  lemma {:induction false} BulletsPlain(xs: seq<string>)
    requires AllNoNewline(xs)
    ensures AllNoNewline(Bullets(xs))
    decreases |xs|
  {
    if xs != [] {
      assert NoNewline(xs[0]);
      BulletsPlain(xs[1..]);
      AllNoNewlineAppend(["- " + xs[0]], Bullets(xs[1..]));
    }
  }

  lemma {:induction false} InteractionLinesPlain(xs: seq<Interaction>)
    requires forall i :: 0 <= i < |xs| ==> PlainInteraction(xs[i])
    ensures AllNoNewline(InteractionLines(xs))
    decreases |xs|
  {
    if xs != [] {
      assert PlainInteraction(xs[0]);
      var first := [ "- **Target**: " + Field(xs[0].target),
                     "  - **Type**: " + Field(xs[0].interactionType),
                     "  - **Description**: " + Field(xs[0].description) ];
      assert AllNoNewline(first);
      InteractionLinesPlain(xs[1..]);
      AllNoNewlineAppend(first, InteractionLines(xs[1..]));
    }
  }

  lemma SubsectionPlain(title: string, body: seq<string>)
    requires NoNewline(title) && AllNoNewline(body)
    ensures AllNoNewline(Subsection(title, body))
  {
    AllNoNewlineAppend(["#### " + title, ""], body);
    AllNoNewlineAppend(["#### " + title, ""] + body, [""]);
  }

  lemma ActorLinesPlain(a: Actor)
    requires PlainActor(a)
    ensures AllNoNewline(ActorLines(a))
  {
    var fields := ActorFields(a);
    var resp := ListSubsection("Responsibilities", a.responsibilities);
    var perm := ListSubsection("Permissions", a.permissions);
    var inter := InteractionsSubsection(a.interactions);
    if a.responsibilities.Some? {
      BulletsPlain(a.responsibilities.value);
      SubsectionPlain("Responsibilities", Bullets(a.responsibilities.value));
    }
    if a.permissions.Some? {
      BulletsPlain(a.permissions.value);
      SubsectionPlain("Permissions", Bullets(a.permissions.value));
    }
    if a.interactions.Some? {
      InteractionLinesPlain(a.interactions.value);
      SubsectionPlain("Interactions", InteractionLines(a.interactions.value));
    }
    ActorFieldsPlain(a);
    AllNoNewlineAppend(fields, resp);
    AllNoNewlineAppend(fields + resp, perm);
    AllNoNewlineAppend(fields + resp + perm, inter);
  }

  lemma {:induction false} ActorsBlockPlain(xs: seq<Actor>)
    requires forall i :: 0 <= i < |xs| ==> PlainActor(xs[i])
    ensures AllNoNewline(ActorsBlock(xs))
    decreases |xs|
  {
    if xs != [] {
      ActorLinesPlain(xs[0]);
      ActorsBlockPlain(xs[1..]);
      AllNoNewlineAppend(ActorLines(xs[0]), ActorsBlock(xs[1..]));
    }
  }

  lemma ActorsSectionPlain(out: ActorsOutput)
    requires PlainActors(out)
    ensures AllNoNewline(ActorsSection(out))
  {
    ActorsBlockPlain(out.actors.GetOr([]));
    var h := TextSubsection("Actor Hierarchy", out.actorHierarchy);
    var s := TextSubsection("Stakeholder Summary", out.stakeholderSummary);
    TextSubsectionPlain("Actor Hierarchy", out.actorHierarchy);
    TextSubsectionPlain("Stakeholder Summary", out.stakeholderSummary);
    AllNoNewlineAppend(h, s);
    AllNoNewlineAppend(ActorsBlock(out.actors.GetOr([])), ActorsTrailer(out));
  }

  lemma TextSubsectionPlain(title: string, o: Option<string>)
    requires NoNewline(title) && (o.Some? ==> NoNewline(o.value))
    ensures AllNoNewline(TextSubsection(title, o))
  {
    if o.Some? {
      var ls := TextSubsection(title, o);
      assert ls[0] == "### " + title && ls[2] == o.value;
    }
  }

  lemma {:induction false} DataObjectsBlockPlain(xs: seq<DataObject>)
    requires PlainDataObjects(xs)
    ensures AllNoNewline(DataObjectsBlock(xs))
    decreases |xs|
  {
    if xs != [] {
      DataObjectLinesPlain(xs[0]);
      DataObjectsBlockPlain(xs[1..]);
      AllNoNewlineAppend(DataObjectLines(xs[0]), DataObjectsBlock(xs[1..]));
    }
  }

  lemma ListFieldPlain(o: Option<seq<string>>)
    ensures NoNewline(ListField(o))
  {
    if o.Some? {
      ReprListNoNewline(o.value);
    }
  }

  lemma {:induction false} UseCasesBlockPlain(xs: seq<UseCase>, unnamed: string)
    requires PlainUseCases(xs) && NoNewline(unnamed)
    ensures AllNoNewline(UseCasesBlock(xs, unnamed))
    decreases |xs|
  {
    if xs != [] {
      var u := xs[0];
      assert PlainUseCase(u);
      ListFieldPlain(u.actors);
      ListFieldPlain(u.postconditions);
      ListFieldPlain(u.preconditions);
      assert AllNoNewline(UseCaseLines(u, unnamed));
      UseCasesBlockPlain(xs[1..], unnamed);
      AllNoNewlineAppend(UseCaseLines(u, unnamed), UseCasesBlock(xs[1..], unnamed));
    }
  }

  // ---------------------------------------------------------------------
  // Reading requirements back

  /** A requirement as a reader of the document sees it: every field as
      printed, absent ones as "N/A" and an absent name as the placeholder. */
  datatype ShownRequirement = ShownRequirement(
    name: string, id: string, source: string, kind: string, detail: string, coveredUsr: string)

  function Shown(r: Requirement): ShownRequirement {
    ShownRequirement(r.name.GetOr("Unnamed Requirement"), Field(r.id), Field(r.source),
                     Field(r.kind), Field(r.detail), Field(r.coveredUsr))
  }

  function ShownAll(rs: seq<Requirement>): (r: seq<ShownRequirement>)
    ensures |r| == |rs|
    ensures forall i :: 0 <= i < |rs| ==> r[i] == Shown(rs[i])
  {
    if rs == [] then [] else [Shown(rs[0])] + ShownAll(rs[1..])
  }

  /** The text after `tag`, or nothing when the line does not carry it. */
  function After(line: string, tag: string): string {
    if StartsWith(line, tag) then line[|tag|..] else ""
  }

  /** Reads eight-line requirement blocks for as long as a block starts with
      a `###` heading. */
  function ReadRequirements(ls: seq<string>): seq<ShownRequirement>
    decreases |ls|
  {
    if |ls| < 8 || !StartsWith(ls[0], H3) then []
    else [ShownRequirement(ls[0][|H3|..], After(ls[2], IdLabel), After(ls[3], SourceLabel),
                           After(ls[4], TypeLabel), After(ls[5], DetailLabel),
                           After(ls[6], CoveredLabel))]
         + ReadRequirements(ls[8..])
  }

  lemma AfterLabel(tag: string, value: string)
    ensures After(tag + value, tag) == value
  {
    assert (tag + value)[..|tag|] == tag;
  }

  lemma ReadRequirementLines(r: Requirement, tail: seq<string>)
    ensures ReadRequirements(RequirementLines(r) + tail) == [Shown(r)] + ReadRequirements(tail)
  {
    var ls := RequirementLines(r) + tail;
    HeadingLine(r.name.GetOr("Unnamed Requirement"));
    AfterLabel(IdLabel, Field(r.id));
    AfterLabel(SourceLabel, Field(r.source));
    AfterLabel(TypeLabel, Field(r.kind));
    AfterLabel(DetailLabel, Field(r.detail));
    AfterLabel(CoveredLabel, Field(r.coveredUsr));
    assert ls[8..] == tail;
  }

  /** Reading the requirement blocks back gives every requirement, in order,
      with every field as shown, whatever the field texts hold; reading stops
      at the first line that does not open another block. */
  lemma {:induction false} ReadRequirementsBlock(rs: seq<Requirement>, tail: seq<string>)
    ensures ReadRequirements(RequirementsBlock(rs) + tail) == ShownAll(rs) + ReadRequirements(tail)
    decreases |rs|
  {
    if rs != [] {
      ReadRequirementsBlock(rs[1..], tail);
      assert RequirementsBlock(rs) + tail == RequirementLines(rs[0]) + (RequirementsBlock(rs[1..]) + tail);
      ReadRequirementLines(rs[0], RequirementsBlock(rs[1..]) + tail);
    } else {
      assert RequirementsBlock(rs) + tail == tail;
    }
  }

  // ---------------------------------------------------------------------
  // Heading lemmas

  predicate AllNotHeading(ls: seq<string>) {
    forall i :: 0 <= i < |ls| ==> NotHeading(ls[i])
  }

  lemma AllNotHeadingAppend(a: seq<string>, b: seq<string>)
    requires AllNotHeading(a) && AllNotHeading(b)
    ensures AllNotHeading(a + b)
  {
    forall i | 0 <= i < |a + b|
      ensures NotHeading((a + b)[i])
    {
      if i >= |a| {
        assert (a + b)[i] == b[i - |a|];
      }
    }
  }

  lemma {:induction false} HeadingsNone(marker: string, ls: seq<string>)
    requires marker == H2 || marker == H3
    requires AllNotHeading(ls)
    ensures Headings(marker, ls) == []
    decreases |ls|
  {
    if ls != [] {
      HeadingsNone(marker, ls[1..]);
    }
  }

  /** Lines that begin with `-` or a space, or are empty, are no headings. */
  lemma NotHeadingByFirst(line: string)
    requires line == [] || line[0] == '-' || line[0] == ' '
    ensures NotHeading(line)
  {
    if line != [] {
      assert !StartsWith(line, H2) by {
        if |H2| <= |line| {
          assert line[..|H2|][0] == line[0];
        }
      }
      assert !StartsWith(line, H3) by {
        if |H3| <= |line| {
          assert line[..|H3|][0] == line[0];
        }
      }
    }
  }

  /** A `####` line is neither a `##` nor a `###` heading. */
  lemma NotHeadingFour(title: string)
    ensures NotHeading("#### " + title)
  {
    var line := "#### " + title;
    assert line[..3][2] == '#';
    assert line[..4][3] == '#';
  }

  lemma HeadingLine(name: string)
    ensures StartsWith("### " + name, H3)
    ensures ("### " + name)[|H3|..] == name
    ensures !StartsWith("### " + name, H2)
  {
    var line := "### " + name;
    assert line[..3][2] == '#';
    assert line[..4] == H3;
  }

  /** A block made of one `###` heading line followed by lines that are no
      headings has exactly that heading, and no `##` heading. */
  lemma OneHeading(name: string, rest: seq<string>)
    requires AllNotHeading(rest)
    ensures Headings(H3, ["### " + name] + rest) == [name]
    ensures Headings(H2, ["### " + name] + rest) == []
  {
    var ls := ["### " + name] + rest;
    HeadingsNone(H3, rest);
    HeadingsNone(H2, rest);
    HeadingLine(name);
    assert ls[0] == "### " + name;
    assert ls[1..] == rest;
  }

  /** Every line of a field list (`- **Label**: ...` lines and blank lines). */
  lemma FieldLinesNotHeading(ls: seq<string>)
    requires forall i :: 0 <= i < |ls| ==> ls[i] == [] || ls[i][0] == '-' || ls[i][0] == ' '
    ensures AllNotHeading(ls)
  {
    forall i | 0 <= i < |ls|
      ensures NotHeading(ls[i])
    {
      NotHeadingByFirst(ls[i]);
    }
  }

  lemma RequirementHeadings(r: Requirement)
    ensures Headings(H3, RequirementLines(r)) == [r.name.GetOr("Unnamed Requirement")]
    ensures Headings(H2, RequirementLines(r)) == []
  {
    var ls := RequirementLines(r);
    FieldLinesNotHeading(ls[1..]);
    assert ls == [ls[0]] + ls[1..];
    OneHeading(r.name.GetOr("Unnamed Requirement"), ls[1..]);
  }

  /** N requirements give exactly N `###` headings, their names in order,
      and no `##` heading. */
  lemma {:induction false} RequirementsBlockHeadings(rs: seq<Requirement>)
    ensures Headings(H3, RequirementsBlock(rs)) == RequirementNames(rs)
    ensures Headings(H2, RequirementsBlock(rs)) == []
    ensures |RequirementNames(rs)| == |rs|
    decreases |rs|
  {
    if rs != [] {
      RequirementHeadings(rs[0]);
      RequirementsBlockHeadings(rs[1..]);
      HeadingsAppend(H3, RequirementLines(rs[0]), RequirementsBlock(rs[1..]));
      HeadingsAppend(H2, RequirementLines(rs[0]), RequirementsBlock(rs[1..]));
    }
  }

  lemma {:induction false} BulletsNotHeading(xs: seq<string>)
    ensures AllNotHeading(Bullets(xs))
    decreases |xs|
  {
    if xs != [] {
      BulletsNotHeading(xs[1..]);
      NotHeadingByFirst("- " + xs[0]);
      AllNotHeadingAppend(["- " + xs[0]], Bullets(xs[1..]));
    }
  }

  lemma {:induction false} InteractionLinesNotHeading(xs: seq<Interaction>)
    ensures AllNotHeading(InteractionLines(xs))
    decreases |xs|
  {
    if xs != [] {
      InteractionLinesNotHeading(xs[1..]);
      var first := [ "- **Target**: " + Field(xs[0].target),
                     "  - **Type**: " + Field(xs[0].interactionType),
                     "  - **Description**: " + Field(xs[0].description) ];
      FieldLinesNotHeading(first);
      AllNotHeadingAppend(first, InteractionLines(xs[1..]));
    }
  }

  lemma SubsectionNotHeading(title: string, body: seq<string>)
    requires AllNotHeading(body)
    ensures AllNotHeading(Subsection(title, body))
  {
    NotHeadingFour(title);
    NotHeadingByFirst("");
    AllNotHeadingAppend(["#### " + title, ""], body);
    AllNotHeadingAppend(["#### " + title, ""] + body, [""]);
  }

  lemma ListSubsectionNotHeading(title: string, o: Option<seq<string>>)
    ensures AllNotHeading(ListSubsection(title, o))
  {
    if o.Some? {
      BulletsNotHeading(o.value);
      SubsectionNotHeading(title, Bullets(o.value));
    }
  }

  lemma InteractionsSubsectionNotHeading(o: Option<seq<Interaction>>)
    ensures AllNotHeading(InteractionsSubsection(o))
  {
    if o.Some? {
      InteractionLinesNotHeading(o.value);
      SubsectionNotHeading("Interactions", InteractionLines(o.value));
    }
  }

  /** Everything in an actor's block after its name line is free of
      headings. */
  lemma ActorRestNotHeading(a: Actor)
    ensures AllNotHeading(ActorFields(a)[1..]
                          + ListSubsection("Responsibilities", a.responsibilities)
                          + ListSubsection("Permissions", a.permissions)
                          + InteractionsSubsection(a.interactions))
  {
    var fields := ActorFields(a)[1..];
    var resp := ListSubsection("Responsibilities", a.responsibilities);
    var perm := ListSubsection("Permissions", a.permissions);
    var inter := InteractionsSubsection(a.interactions);
    FieldLinesNotHeading(fields);
    ListSubsectionNotHeading("Responsibilities", a.responsibilities);
    ListSubsectionNotHeading("Permissions", a.permissions);
    InteractionsSubsectionNotHeading(a.interactions);
    AllNotHeadingAppend(fields, resp);
    AllNotHeadingAppend(fields + resp, perm);
    AllNotHeadingAppend(fields + resp + perm, inter);
  }

  /** An actor's block has one `###` heading, its name, whatever optional
      subsections it carries. */
  lemma ActorHeadings(a: Actor)
    ensures Headings(H3, ActorLines(a)) == [a.name.GetOr("Unnamed Actor")]
    ensures Headings(H2, ActorLines(a)) == []
  {
    var fields := ActorFields(a);
    var rest := fields[1..]
                + ListSubsection("Responsibilities", a.responsibilities)
                + ListSubsection("Permissions", a.permissions)
                + InteractionsSubsection(a.interactions);
    ActorRestNotHeading(a);
    assert ActorLines(a) == [fields[0]] + rest;
    OneHeading(a.name.GetOr("Unnamed Actor"), rest);
  }

  lemma {:induction false} ActorsBlockHeadings(xs: seq<Actor>)
    ensures Headings(H3, ActorsBlock(xs)) == ActorNames(xs)
    ensures Headings(H2, ActorsBlock(xs)) == []
    decreases |xs|
  {
    if xs != [] {
      ActorHeadings(xs[0]);
      ActorsBlockHeadings(xs[1..]);
      HeadingsAppend(H3, ActorLines(xs[0]), ActorsBlock(xs[1..]));
      HeadingsAppend(H2, ActorLines(xs[0]), ActorsBlock(xs[1..]));
    }
  }

  /** A free-text subsection adds its title as a heading exactly when the
      value is present. */
  lemma TextSubsectionHeadings(title: string, o: Option<string>)
    requires o.Some? ==> NotHeading(o.value)
    ensures Headings(H3, TextSubsection(title, o)) == (if o.Some? then [title] else [])
    ensures Headings(H2, TextSubsection(title, o)) == []
  {
    if o.Some? {
      NotHeadingByFirst("");
      var rest := ["", o.value, ""];
      assert AllNotHeading(rest);
      OneHeading(title, rest);
      assert TextSubsection(title, o) == ["### " + title] + rest;
    }
  }

  /** The hierarchy and the summary each add one `###` heading when present. */
  lemma TrailerHeadings(out: ActorsOutput)
    requires out.actorHierarchy.Some? ==> NotHeading(out.actorHierarchy.value)
    requires out.stakeholderSummary.Some? ==> NotHeading(out.stakeholderSummary.value)
    ensures Headings(H3, ActorsTrailer(out))
            == (if out.actorHierarchy.Some? then ["Actor Hierarchy"] else [])
               + (if out.stakeholderSummary.Some? then ["Stakeholder Summary"] else [])
    ensures Headings(H2, ActorsTrailer(out)) == []
  {
    var h := TextSubsection("Actor Hierarchy", out.actorHierarchy);
    var s := TextSubsection("Stakeholder Summary", out.stakeholderSummary);
    TextSubsectionHeadings("Actor Hierarchy", out.actorHierarchy);
    TextSubsectionHeadings("Stakeholder Summary", out.stakeholderSummary);
    HeadingsAppend(H3, h, s);
    HeadingsAppend(H2, h, s);
  }

  /** The actors section: one heading per actor in order, then the hierarchy
      and the summary headings, each at most once and only when present. */
  lemma ActorsSectionHeadings(out: ActorsOutput)
    requires out.actorHierarchy.Some? ==> NotHeading(out.actorHierarchy.value)
    requires out.stakeholderSummary.Some? ==> NotHeading(out.stakeholderSummary.value)
    ensures Headings(H3, ActorsSection(out))
            == ActorNames(out.actors.GetOr([]))
               + (if out.actorHierarchy.Some? then ["Actor Hierarchy"] else [])
               + (if out.stakeholderSummary.Some? then ["Stakeholder Summary"] else [])
    ensures Headings(H2, ActorsSection(out)) == []
  {
    var block := ActorsBlock(out.actors.GetOr([]));
    var trailer := ActorsTrailer(out);
    var names := ActorNames(out.actors.GetOr([]));
    var h := if out.actorHierarchy.Some? then ["Actor Hierarchy"] else [];
    var k := if out.stakeholderSummary.Some? then ["Stakeholder Summary"] else [];
    assert Headings(H3, block) == names && Headings(H2, block) == [] by {
      ActorsBlockHeadings(out.actors.GetOr([]));
    }
    assert Headings(H3, trailer) == h + k && Headings(H2, trailer) == [] by {
      TrailerHeadings(out);
    }
    HeadingsAppend(H3, block, trailer);
    HeadingsAppend(H2, block, trailer);
    ConcatAssoc(names, h, k);
  }

  lemma DataObjectHeadings(o: DataObject)
    ensures Headings(H3, DataObjectLines(o)) == [o.name.GetOr("Unnamed Object")]
    ensures Headings(H2, DataObjectLines(o)) == []
  {
    var ls := DataObjectLines(o);
    FieldLinesNotHeading(ls[1..]);
    assert ls == [ls[0]] + ls[1..];
    OneHeading(o.name.GetOr("Unnamed Object"), ls[1..]);
  }

  lemma {:induction false} DataObjectsBlockHeadings(xs: seq<DataObject>)
    ensures Headings(H3, DataObjectsBlock(xs)) == DataObjectNames(xs)
    ensures Headings(H2, DataObjectsBlock(xs)) == []
    decreases |xs|
  {
    if xs != [] {
      DataObjectHeadings(xs[0]);
      DataObjectsBlockHeadings(xs[1..]);
      HeadingsAppend(H3, DataObjectLines(xs[0]), DataObjectsBlock(xs[1..]));
      HeadingsAppend(H2, DataObjectLines(xs[0]), DataObjectsBlock(xs[1..]));
    }
  }

  lemma UseCaseHeadings(u: UseCase, unnamed: string)
    ensures Headings(H3, UseCaseLines(u, unnamed)) == [u.name.GetOr(unnamed)]
    ensures Headings(H2, UseCaseLines(u, unnamed)) == []
  {
    var ls := UseCaseLines(u, unnamed);
    FieldLinesNotHeading(ls[1..]);
    assert ls == [ls[0]] + ls[1..];
    OneHeading(u.name.GetOr(unnamed), ls[1..]);
  }

  lemma {:induction false} UseCasesBlockHeadings(xs: seq<UseCase>, unnamed: string)
    ensures Headings(H3, UseCasesBlock(xs, unnamed)) == UseCaseNames(xs, unnamed)
    ensures Headings(H2, UseCasesBlock(xs, unnamed)) == []
    decreases |xs|
  {
    if xs != [] {
      UseCaseHeadings(xs[0], unnamed);
      UseCasesBlockHeadings(xs[1..], unnamed);
      HeadingsAppend(H3, UseCaseLines(xs[0], unnamed), UseCasesBlock(xs[1..], unnamed));
      HeadingsAppend(H2, UseCaseLines(xs[0], unnamed), UseCasesBlock(xs[1..], unnamed));
    }
  }

  /** The report header holds no section heading. */
  /** A `##` line and a blank line: one `##` heading, the title, and no
      `###` heading (the third character of the line is a space). */
  lemma SectionHead(title: string)
    requires NoNewline(title)
    ensures AllNoNewline(["## " + title, ""])
    ensures Headings(H2, ["## " + title, ""]) == [title]
    ensures Headings(H3, ["## " + title, ""]) == []
  {
    var line := "## " + title;
    var ls := [line, ""];
    assert line[..3] == H2 && line[3..] == title;
    assert |line| >= 4 ==> line[..4][2] == ' ';
    assert ls[1..] == [""];
    assert [""][1..] == [];
  }

  /** A header built from single-line parts is single-line, title first. */
  lemma HeaderPlain(title: string, generatedOn: string)
    requires NoNewline(title) && NoNewline(generatedOn)
    ensures AllNoNewline(Header(title, generatedOn))
    ensures Header(title, generatedOn)[0] == "# " + title
  {
    var ls := Header(title, generatedOn);
    assert NoNewline(ls[0]) by { assert ls[0] == "# " + title; }
    assert NoNewline(ls[2]) by { assert ls[2] == "Generated on: " + generatedOn; }
  }

  lemma HeaderHeadings(title: string, generatedOn: string)
    ensures Headings(H3, Header(title, generatedOn)) == []
    ensures Headings(H2, Header(title, generatedOn)) == []
  {
    var ls := Header(title, generatedOn);
    assert ls[0][..2][1] == ' ';
    assert ls[2][..2][0] == 'G';
    FieldLinesNotHeading([ls[1], ls[3]]);
    assert NotHeading(ls[0]) && NotHeading(ls[2]);
    assert AllNotHeading(ls);
    HeadingsNone(H3, ls);
    HeadingsNone(H2, ls);
  }

  // ---------------------------------------------------------------------
  // An actor's `####` subsections

  const H4: string := "#### "

  /** Lines none of which starts with `marker` hold no heading of it. */
  lemma {:induction false} HeadingsAbsent(marker: string, ls: seq<string>)
    requires forall i :: 0 <= i < |ls| ==> !StartsWith(ls[i], marker)
    ensures Headings(marker, ls) == []
    decreases |ls|
  {
    if ls != [] {
      HeadingsAbsent(marker, ls[1..]);
    }
  }

  /** A line that begins with `-` or a space, or is empty, or is a `###`
      line, is no `####` heading. */
  lemma NotSubheading(line: string)
    requires line == [] || line[0] == '-' || line[0] == ' ' || StartsWith(line, H3)
    ensures !StartsWith(line, H4)
  {
    if |H4| <= |line| {
      if StartsWith(line, H3) {
        assert line[..|H4|][3] == line[..|H3|][3] == ' ';
      } else {
        assert line[..|H4|][0] == line[0];
      }
    }
  }

  /** One bullet per item, in order. */
  lemma {:induction false} BulletsSpec(xs: seq<string>)
    ensures |Bullets(xs)| == |xs|
    ensures forall i :: 0 <= i < |xs| ==> Bullets(xs)[i] == "- " + xs[i]
    ensures Headings(H4, Bullets(xs)) == []
    decreases |xs|
  {
    if xs != [] {
      BulletsSpec(xs[1..]);
      NotSubheading("- " + xs[0]);
      assert Bullets(xs)[1..] == Bullets(xs[1..]);
    }
  }

  /** Three lines per interaction: target, type, description. */
  lemma {:induction false} InteractionLinesSpec(xs: seq<Interaction>)
    ensures |InteractionLines(xs)| == 3 * |xs|
    ensures forall i :: 0 <= i < |xs| ==>
              InteractionLines(xs)[3 * i] == "- **Target**: " + Field(xs[i].target)
              && InteractionLines(xs)[3 * i + 1] == "  - **Type**: " + Field(xs[i].interactionType)
              && InteractionLines(xs)[3 * i + 2] == "  - **Description**: " + Field(xs[i].description)
    decreases |xs|
  {
    if xs != [] {
      var first := [ "- **Target**: " + Field(xs[0].target),
                     "  - **Type**: " + Field(xs[0].interactionType),
                     "  - **Description**: " + Field(xs[0].description) ];
      var rest := InteractionLines(xs[1..]);
      InteractionLinesSpec(xs[1..]);
      assert InteractionLines(xs) == first + rest;
      forall i | 1 <= i < |xs|
        ensures InteractionLines(xs)[3 * i] == rest[3 * (i - 1)]
        ensures InteractionLines(xs)[3 * i + 1] == rest[3 * (i - 1) + 1]
        ensures InteractionLines(xs)[3 * i + 2] == rest[3 * (i - 1) + 2]
        ensures xs[i] == xs[1..][i - 1]
      {
      }
    }
  }

  /** Interaction lines are bullets, never `####` subheadings. */
  lemma {:induction false} InteractionLinesSubheadings(xs: seq<Interaction>)
    ensures Headings(H4, InteractionLines(xs)) == []
    decreases |xs|
  {
    if xs != [] {
      var first := [ "- **Target**: " + Field(xs[0].target),
                     "  - **Type**: " + Field(xs[0].interactionType),
                     "  - **Description**: " + Field(xs[0].description) ];
      var rest := InteractionLines(xs[1..]);
      InteractionLinesSubheadings(xs[1..]);
      assert InteractionLines(xs) == first + rest;
      NotSubheading(first[0]);
      NotSubheading(first[1]);
      NotSubheading(first[2]);
      HeadingsAbsent(H4, first);
      HeadingsAppend(H4, first, rest);
    }
  }

  lemma SubsectionSubheadings(title: string, body: seq<string>)
    ensures Headings(H4, Subsection(title, body)) == [title] + Headings(H4, body)
  {
    var line := "#### " + title;
    assert line[..|H4|] == H4;
    assert line[|H4|..] == title;
    NotSubheading("");
    HeadingsAppend(H4, [line, ""], body);
    HeadingsAppend(H4, [line, ""] + body, [""]);
    assert [line, ""][1..] == [""];
  }

  /** An actor's Responsibilities, Permissions and Interactions subsections
      appear, in that order, exactly when the actor carries that key. */
  lemma ActorSubsections(a: Actor)
    ensures Headings(H4, ActorLines(a))
            == (if a.responsibilities.Some? then ["Responsibilities"] else [])
               + (if a.permissions.Some? then ["Permissions"] else [])
               + (if a.interactions.Some? then ["Interactions"] else [])
  {
    var fields := ActorFields(a);
    var resp := ListSubsection("Responsibilities", a.responsibilities);
    var perm := ListSubsection("Permissions", a.permissions);
    var inter := InteractionsSubsection(a.interactions);
    calc {
      Headings(H4, ActorLines(a));
      Headings(H4, fields + resp + perm + inter);
      { HeadingsAppend(H4, fields + resp + perm, inter); }
      Headings(H4, fields + resp + perm) + Headings(H4, inter);
      { HeadingsAppend(H4, fields + resp, perm); }
      Headings(H4, fields + resp) + Headings(H4, perm) + Headings(H4, inter);
      { HeadingsAppend(H4, fields, resp); }
      Headings(H4, fields) + Headings(H4, resp) + Headings(H4, perm) + Headings(H4, inter);
      { ActorFieldsSubheadings(a);
        ListSubsectionSubheadings("Responsibilities", a.responsibilities);
        ListSubsectionSubheadings("Permissions", a.permissions);
        InteractionsSubsectionSubheadings(a.interactions); }
      [] + (if a.responsibilities.Some? then ["Responsibilities"] else [])
         + (if a.permissions.Some? then ["Permissions"] else [])
         + (if a.interactions.Some? then ["Interactions"] else []);
    }
  }

  lemma ActorFieldsSubheadings(a: Actor)
    ensures Headings(H4, ActorFields(a)) == []
  {
    var fields := ActorFields(a);
    HeadingLine(a.name.GetOr("Unnamed Actor"));
    forall i | 0 <= i < |fields|
      ensures !StartsWith(fields[i], H4)
    {
      NotSubheading(fields[i]);
    }
    HeadingsAbsent(H4, fields);
  }

  lemma ListSubsectionSubheadings(title: string, o: Option<seq<string>>)
    ensures Headings(H4, ListSubsection(title, o)) == (if o.Some? then [title] else [])
  {
    if o.Some? {
      BulletsSpec(o.value);
      SubsectionSubheadings(title, Bullets(o.value));
    }
  }

  lemma InteractionsSubsectionSubheadings(o: Option<seq<Interaction>>)
    ensures Headings(H4, InteractionsSubsection(o)) == (if o.Some? then ["Interactions"] else [])
  {
    if o.Some? {
      InteractionLinesSubheadings(o.value);
      SubsectionSubheadings("Interactions", InteractionLines(o.value));
    }
  }
}
