/** Translating Loki stream selectors into VictoriaLogs filters. */
module LogQuery {
  import opened Common
  import opened Strings

  datatype MatchOp = Equals | Differs | Matches

  datatype Matcher = Matcher(op: MatchOp, field: string, value: string)

  predicate IsQuote(c: char) { c == '"' }

  function Render(m: Matcher): string {
    match m.op
    case Equals => m.field + ":" + m.value
    case Differs => "NOT " + m.field + ":" + m.value
    case Matches => m.field + ":~" + m.value
  }

  function Side(op: MatchOp, sides: (string, string)): Matcher {
    Matcher(op, Trim(sides.0), TrimBy(Trim(sides.1), IsQuote))
  }

  /** One selector part: the operators are looked for in this order. */
  function ParsePart(part: string): Option<Matcher> {
    var regex, differs, equals := Cut(part, "=~"), Cut(part, "!="), Cut(part, "=");
    if regex.Some? then Some(Side(Matches, regex.value))
    else if differs.Some? then Some(Side(Differs, differs.value))
    else if equals.Some? then Some(Side(Equals, equals.value))
    else None
  }

  /** The conjuncts pushed for a list of parts. */
  function Conjuncts(parts: seq<string>): seq<string> {
    if parts == [] then []
    else
      var before := Conjuncts(parts[..|parts| - 1]);
      var m := ParsePart(Trim(parts[|parts| - 1]));
      if m.None? then before else before + [Render(m.value)]
  }

  predicate BraceWrapped(s: string) {
    StartsWith(s, "{") && EndsWith(s, "}")
  }

  function Inner(s: string): (r: string)
    requires BraceWrapped(s)
    ensures s == "{" + r + "}"
  {
    assert s[0] == '{' && s[|s| - 1..][0] == '}';
    s[1..|s| - 1]
  }

  function Convert(query: string): string {
    var q := Trim(query);
    if q == "" || q == "*" then "*"
    else if BraceWrapped(q) then
      var found := Conjuncts(Split(Inner(q), ','));
      if found == [] then "*" else Join(found, " AND ")
    else q
  }

  method ConvertLokiToLogsql(query: string) returns (r: string)
    ensures r == Convert(query)
  {
    var q := Trim(query);
    if q == "" || q == "*" {
      return "*";
    }
    if BraceWrapped(q) {
      var parts := Split(q[1..|q| - 1], ',');
      var found: seq<string> := [];
      for i := 0 to |parts|
        invariant found == Conjuncts(parts[..i])
      {
        assert parts[..i + 1][..i] == parts[..i];
        var part := Trim(parts[i]);
        if part == "" {
          continue;
        }
        var regex, differs, equals := Cut(part, "=~"), Cut(part, "!="), Cut(part, "=");
        if regex.Some? {
          found := found + [Trim(regex.value.0) + ":~" + TrimBy(Trim(regex.value.1), IsQuote)];
        } else if differs.Some? {
          found := found + ["NOT " + Trim(differs.value.0) + ":" + TrimBy(Trim(differs.value.1), IsQuote)];
        } else if equals.Some? {
          found := found + [Trim(equals.value.0) + ":" + TrimBy(Trim(equals.value.1), IsQuote)];
        }
      }
      assert parts[..|parts|] == parts;
      if found == [] {
        return "*";
      }
      return Join(found, " AND ");
    }
    return q;
  }

  // ------------------------------------------------------- printed selectors

  predicate IdentStart(c: char) {
    'a' <= c <= 'z' || 'A' <= c <= 'Z' || c == '_'
  }

  predicate IdentChar(c: char) {
    IdentStart(c) || '0' <= c <= '9'
  }

  predicate Identifier(s: string) {
    s != "" && IdentStart(s[0]) && forall c | c in s :: IdentChar(c)
  }

  const SMALL: string := "abcdefghijklmnopqrstuvwxyz"
  const CAPITAL: string := "ABCDEFGHIJKLMNOPQRSTUVWXYZ"
  const NUMERALS: string := "0123456789"

  lemma SmallListed(c: char)
    ensures 'a' <= c <= 'z' <==> c in SMALL
  {
    if 'a' <= c <= 'z' {
      assert SMALL[c as int - 97] == c;
    }
  }

  lemma CapitalListed(c: char)
    ensures 'A' <= c <= 'Z' <==> c in CAPITAL
  {
    if 'A' <= c <= 'Z' {
      assert CAPITAL[c as int - 65] == c;
    }
  }

  lemma NumeralListed(c: char)
    ensures '0' <= c <= '9' <==> c in NUMERALS
  {
    if '0' <= c <= '9' {
      assert NUMERALS[c as int - 48] == c;
    }
  }

  /** Label names: a letter or underscore, then letters, digits and underscores. */
  lemma IdentifierExact(s: string)
    ensures Identifier(s) <==>
            && s != "" && (s[0] in SMALL || s[0] in CAPITAL || s[0] == '_')
            && forall c | c in s :: c in SMALL || c in CAPITAL || c == '_' || c in NUMERALS
  {
    forall c: char
      ensures IdentStart(c) <==> c in SMALL || c in CAPITAL || c == '_'
      ensures IdentChar(c) <==> c in SMALL || c in CAPITAL || c == '_' || c in NUMERALS
    {
      SmallListed(c);
      CapitalListed(c);
      NumeralListed(c);
    }
  }

  /** A value without quotes, commas, equals signs or outer spaces. */
  predicate PlainValue(s: string) {
    Bare(s, IsSpace) && '"' !in s && ',' !in s && '=' !in s
  }

  /** A matcher with the blanks that surround its tokens. */
  datatype Spaced = Spaced(before: string, left: string, right: string, after: string, m: Matcher)

  ghost predicate Printable(p: Spaced) {
    && AllOf(p.before, IsSpace) && AllOf(p.left, IsSpace) && AllOf(p.right, IsSpace) && AllOf(p.after, IsSpace)
    && Identifier(p.m.field) && PlainValue(p.m.value)
  }

  function OpText(op: MatchOp): string {
    match op
    case Equals => "="
    case Differs => "!="
    case Matches => "=~"
  }

  function Quoted(value: string): string {
    "\"" + value + "\""
  }

  function Core(p: Spaced): string {
    p.m.field + p.left + OpText(p.m.op) + (p.right + Quoted(p.m.value))
  }

  function PartText(p: Spaced): string {
    p.before + Core(p) + p.after
  }

  function PartTexts(ps: seq<Spaced>): seq<string> {
    seq(|ps|, i requires 0 <= i < |ps| => PartText(ps[i]))
  }

  function Rendered(ms: seq<Matcher>): seq<string> {
    seq(|ms|, i requires 0 <= i < |ms| => Render(ms[i]))
  }

  function Matchers(ps: seq<Spaced>): seq<Matcher> {
    seq(|ps|, i requires 0 <= i < |ps| => ps[i].m)
  }

  function Selector(ps: seq<Spaced>): string {
    "{" + Join(PartTexts(ps), ",") + "}"
  }

  /**
   * The part is cut where its operator first stands: `=~` wherever there is one, otherwise `!=`, otherwise `=`.
   */
  ghost predicate CutsAt(part: string, op: MatchOp, left: string, right: string) {
    && part == left + OpText(op) + right
    && (forall j: nat | j < |left| :: !OccursAt(part, OpText(op), j))
    && (op != Matches ==> forall j: nat :: !OccursAt(part, "=~", j))
    && (op == Equals ==> forall j: nat :: !OccursAt(part, "!=", j))
  }

  lemma CutFirst(part: string, pat: string)
    requires Cut(part, pat).Some?
    ensures forall j: nat | j < |Cut(part, pat).value.0| :: !OccursAt(part, pat, j)
  {
  }

  lemma OpAt(part: string, op: MatchOp, left: string, right: string)
    requires CutsAt(part, op, left, right)
    ensures Cut(part, OpText(op)) == Some((left, right)) && OccursAt(part, OpText(op), |left|)
  {
    CutAt(left, OpText(op), right);
    assert part[|left|..] == OpText(op) + right;
  }

  lemma CutNowhere(part: string, pat: string)
    ensures Cut(part, pat).None? <==> forall j: nat :: !OccursAt(part, pat, j)
  {
  }

  /** Any part of a selector: a matcher exactly when it holds an operator, with what stands around it, trimmed and unquoted. */
  lemma PartExact(part: string, m: Matcher)
    ensures ParsePart(part) == Some(m) <==>
            exists left, right :: CutsAt(part, m.op, left, right) &&
              m.field == Trim(left) && m.value == TrimBy(Trim(right), IsQuote)
  {
    CutNowhere(part, "=~");
    CutNowhere(part, "!=");
    if ParsePart(part) == Some(m) {
      var (left, right) := Cut(part, OpText(m.op)).value;
      CutFirst(part, OpText(m.op));
      assert CutsAt(part, m.op, left, right);
    }
    forall left, right | CutsAt(part, m.op, left, right) && m.field == Trim(left) && m.value == TrimBy(Trim(right), IsQuote)
      ensures ParsePart(part) == Some(m)
    {
      OpAt(part, m.op, left, right);
    }
  }

  lemma NoMatcherExact(part: string)
    ensures ParsePart(part).None? <==> '=' !in part
  {
    CutNowhere(part, "=~");
    CutNowhere(part, "!=");
    CutNowhere(part, "=");
    if '=' in part {
      var i :| 0 <= i < |part| && part[i] == '=';
      assert part[i..][..1] == "=" && OccursAt(part, "=", i);
    }
    forall j: nat | OccursAt(part, "=", j) ensures '=' in part {
      OccursChars(part, "=", j);
      assert part[j + 0] == "="[0];
    }
    forall j: nat | OccursAt(part, "=~", j) ensures '=' in part {
      OccursChars(part, "=~", j);
      assert part[j + 0] == "=~"[0];
    }
    forall j: nat | OccursAt(part, "!=", j) ensures '=' in part {
      OccursChars(part, "!=", j);
      assert part[j + 1] == "!="[1];
    }
  }

  /** Parts become conjuncts one by one, and a part without an operator is left out. */
  lemma ConjunctsExact(parts: seq<string>, part: string)
    ensures Conjuncts([]) == []
    ensures Conjuncts(parts + [part]) ==
            Conjuncts(parts) +
            if ParsePart(Trim(part)).Some? then [Print(FilterOf(ParsePart(Trim(part)).value))] else []
  {
    assert (parts + [part])[..|parts + [part]| - 1] == parts;
    if ParsePart(Trim(part)).Some? {
      RenderIsPrint(ParsePart(Trim(part)).value);
    }
  }

  lemma IdentNotSpecial(s: string)
    requires Identifier(s)
    ensures forall c | c in s :: !IsSpace(c) && c != '=' && c != '!' && c != ',' && c != ':' && c != '~' && c != '"' && c != '{'
  {
  }

  lemma EqualsOnlyInOp(left: string, op: string, right: string)
    requires '=' !in left && '=' !in right && '!' !in left
    ensures var s := left + op + right;
      forall k | 0 <= k < |s| && s[k] == '=' :: |left| <= k < |left| + |op|
    ensures forall k | 0 <= k < |left| :: (left + op + right)[k] != '!'
  {
    var s := left + op + right;
    assert forall k | 0 <= k < |left| :: s[k] == left[k];
    assert forall k | |left| + |op| <= k < |s| :: s[k] == right[k - |left| - |op|];
  }

  lemma PairAt(s: string, pat: string, j: nat)
    requires |pat| == 2
    ensures OccursAt(s, pat, j) <==> j + 1 < |s| && s[j] == pat[0] && s[j + 1] == pat[1]
  {
    OccursChars(s, pat, j);
    assert j + 2 <= |s| ==> s[j..][0] == s[j] && s[j..][1] == s[j + 1];
    if OccursAt(s, pat, j) {
      assert s[j + 0] == pat[0] && s[j + 1] == pat[1];
    }
  }

  predicate AndChars(s: string, j: nat) {
    j + 5 <= |s| && s[j] == ' ' && s[j + 1] == 'A' && s[j + 2] == 'N' && s[j + 3] == 'D' && s[j + 4] == ' '
  }

  lemma AndAt(s: string, j: nat)
    ensures OccursAt(s, " AND ", j) <==> AndChars(s, j)
  {
    OccursChars(s, " AND ", j);
    if OccursAt(s, " AND ", j) {
      var pat := " AND ";
      assert s[j + 0] == pat[0] && s[j + 1] == pat[1] && s[j + 2] == pat[2] && s[j + 3] == pat[3] && s[j + 4] == pat[4];
    }
    if AndChars(s, j) {
      assert s[j..j + 5] == " AND " && s[j..][..5] == s[j..j + 5];
    }
  }

  /** The operator is found exactly where it was printed. */
  lemma OperatorFound(left: string, op: MatchOp, right: string)
    requires '=' !in left && '!' !in left && '=' !in right && right != "" && right[0] != '~'
    ensures ParsePart(left + OpText(op) + right) == Some(Side(op, (left, right)))
  {
    var s := left + OpText(op) + right;
    EqualsOnlyInOp(left, OpText(op), right);
    assert forall k | 0 <= k < |OpText(op)| :: s[|left| + k] == OpText(op)[k];
    assert s[|left| + |OpText(op)|] == right[0];
    forall j: nat ensures OccursAt(s, "=~", j) ==> op == Matches && j == |left| {
      PairAt(s, "=~", j);
    }
    forall j: nat ensures OccursAt(s, "!=", j) ==> op == Matches || (op == Differs && j == |left|) {
      PairAt(s, "!=", j);
    }
    forall j: nat ensures OccursAt(s, "=", j) ==> j >= |left| {
      OccursChars(s, "=", j);
      assert OccursAt(s, "=", j) ==> s[j + 0] == "="[0];
    }
    CutAt(left, OpText(op), right);
  }

  lemma SidesTrimmed(p: Spaced)
    requires Printable(p)
    ensures Side(p.m.op, (p.m.field + p.left, p.right + Quoted(p.m.value))) == p.m
  {
    IdentNotSpecial(p.m.field);
    assert "" + p.m.field + p.left == p.m.field + p.left;
    TrimPadded("", p.m.field, p.left, IsSpace);
    var right := p.right + Quoted(p.m.value);
    assert right + "" == right;
    TrimPadded(p.right, Quoted(p.m.value), "", IsSpace);
    TrimPadded("\"", p.m.value, "\"", IsQuote);
  }

  lemma QuotedSide(pad: string, value: string)
    requires AllOf(pad, IsSpace) && '=' !in value
    ensures var right := pad + Quoted(value); right != "" && right[0] != '~' && '=' !in right && right[|right| - 1] == '"'
  {
    var right := pad + Quoted(value);
    assert right[0] == if pad == "" then '"' else pad[0];
    assert pad != "" ==> pad[0] in pad;
  }

  lemma PartParsed(p: Spaced)
    requires Printable(p)
    ensures ParsePart(Trim(PartText(p))) == Some(p.m)
  {
    var left, right := p.m.field + p.left, p.right + Quoted(p.m.value);
    IdentNotSpecial(p.m.field);
    QuotedSide(p.right, p.m.value);
    var core := Core(p);
    assert core[0] == p.m.field[0] && core[|core| - 1] == right[|right| - 1];
    TrimPadded(p.before, core, p.after, IsSpace);
    OperatorFound(left, p.m.op, right);
    SidesTrimmed(p);
  }

  lemma ConjunctAdded(texts: seq<string>, n: nat, m: Matcher)
    requires |texts| == n + 1 && ParsePart(Trim(texts[n])) == Some(m)
    ensures Conjuncts(texts) == Conjuncts(texts[..n]) + [Render(m)]
  {
  }

  lemma RenderedAdded(ms: seq<Matcher>, n: nat)
    requires |ms| == n + 1
    ensures Rendered(ms) == Rendered(ms[..n]) + [Render(ms[n])]
  {
  }

  lemma {:induction false} Collected(texts: seq<string>, ms: seq<Matcher>)
    requires |texts| == |ms| && forall i | 0 <= i < |ms| :: ParsePart(Trim(texts[i])) == Some(ms[i])
    ensures Conjuncts(texts) == Rendered(ms)
  {
    if ms != [] {
      var n := |ms| - 1;
      Collected(texts[..n], ms[..n]);
      ConjunctAdded(texts, n, ms[n]);
      RenderedAdded(ms, n);
    }
  }

  lemma PartsConverted(ps: seq<Spaced>)
    requires forall p | p in ps :: Printable(p)
    ensures Conjuncts(PartTexts(ps)) == Rendered(Matchers(ps))
  {
    var texts, ms := PartTexts(ps), Matchers(ps);
    forall i | 0 <= i < |ms| ensures ParsePart(Trim(texts[i])) == Some(ms[i]) {
      PartParsed(ps[i]);
    }
    Collected(texts, ms);
  }

  lemma PartHasNoComma(p: Spaced)
    requires Printable(p)
    ensures ',' !in PartText(p)
  {
    IdentNotSpecial(p.m.field);
  }

  /** Any printed selector becomes one conjunct per matcher, in order, whatever blanks surround its tokens. */
  lemma SelectorConverted(pad: string, ps: seq<Spaced>, pad': string)
    requires AllOf(pad, IsSpace) && AllOf(pad', IsSpace) && forall p | p in ps :: Printable(p)
    ensures Convert(pad + Selector(ps) + pad') == if ps == [] then "*" else Join(Rendered(Matchers(ps)), " AND ")
  {
    var q := Selector(ps);
    TrimPadded(pad, q, pad', IsSpace);
    assert Inner(q) == Join(PartTexts(ps), ",");
    forall part | part in PartTexts(ps) ensures ',' !in part {
      var i :| 0 <= i < |ps| && part == PartText(ps[i]);
      PartHasNoComma(ps[i]);
    }
    if ps == [] {
      assert Conjuncts([""]) == [] by { assert Trim("") == ""; }
    } else {
      SplitOfJoin(PartTexts(ps), ',');
      PartsConverted(ps);
    }
  }

  // --------------------------------------------------- reading the output back

  datatype Filter = Filter(negated: bool, regex: bool, field: string, value: string)

  function FilterOf(m: Matcher): Filter {
    Filter(m.op == Differs, m.op == Matches, m.field, m.value)
  }

  function FiltersOf(ms: seq<Matcher>): seq<Filter> {
    seq(|ms|, i requires 0 <= i < |ms| => FilterOf(ms[i]))
  }

  function Negation(negated: bool): string {
    if negated then "NOT " else ""
  }

  function Tail(regex: bool, value: string): string {
    if regex then "~" + value else value
  }

  function Print(f: Filter): string {
    Negation(f.negated) + (f.field + ":" + Tail(f.regex, f.value))
  }

  function ReadTail(rest: string): (r: (bool, string))
    ensures Tail(r.0, r.1) == rest
  {
    if StartsWith(rest, "~") then (true, rest[1..]) else (false, rest)
  }

  /** Reads `field:[~]value`. */
  function ReadBody(negated: bool, body: string): (r: Option<Filter>)
    ensures r.Some? ==> r.value.negated == negated && body == r.value.field + ":" + Tail(r.value.regex, r.value.value)
  {
    match SplitOnce(body, ':')
    case None => None
    case Some((field, rest)) =>
      var (regex, value) := ReadTail(rest);
      Some(Filter(negated, regex, field, value))
  }

  /** Reads `[NOT ]field:[~]value`. */
  function ReadFilter(piece: string): Option<Filter> {
    if StartsWith(piece, "NOT ") then ReadBody(true, piece[4..]) else ReadBody(false, piece)
  }

  /** What was read prints as what it was read from. */
  lemma FilterRead(piece: string)
    ensures ReadFilter(piece).Some? ==> Print(ReadFilter(piece).value) == piece
  {
    if StartsWith(piece, "NOT ") {
      assert piece == "NOT " + piece[4..];
    } else {
      assert piece == "" + piece;
    }
  }

  function ReadFilters(pieces: seq<string>): seq<Option<Filter>> {
    seq(|pieces|, i requires 0 <= i < |pieces| => ReadFilter(pieces[i]))
  }

  function Somes(fs: seq<Filter>): seq<Option<Filter>> {
    seq(|fs|, i requires 0 <= i < |fs| => Some(fs[i]))
  }

  predicate FreeOfAnd(s: string) {
    FindSub(s, " AND ").None?
  }

  /** The texts of the conjuncts cannot be mistaken for separators. */
  predicate Separable(pieces: seq<string>) {
    forall i | 0 <= i < |pieces| :: FreeOfAnd(if i < |pieces| - 1 then pieces[i] + " " else pieces[i])
  }

  /** Inside a joined text, separators are found where they are found before the blank of the next separator. */
  lemma AndBefore(p: string, rest: string, j: nat)
    requires j < |p|
    ensures OccursAt(p + " AND " + rest, " AND ", j) <==> OccursAt(p + " ", " AND ", j)
  {
    var s, t := p + " AND " + rest, p + " ";
    AndAt(s, j);
    AndAt(t, j);
    assert s[..|t|] == t;
    assert forall k | 0 <= k < |t| :: s[k] == t[k];
    assert s[|p|..][..5] == " AND ";
    assert s[|p| + 1] == 'A' && s[|p| + 2] == 'N' && s[|p| + 3] == 'D' && s[|p| + 4] == ' ';
  }

  lemma AndFits(p: string, j: nat)
    requires OccursAt(p + " ", " AND ", j)
    ensures j < |p|
  {
    AndAt(p + " ", j);
  }

  /** Splitting the joined text recovers the conjuncts exactly when none of them can be mistaken for a separator. */
  lemma {:induction false} JoinedSeparable(pieces: seq<string>)
    requires pieces != []
    ensures SplitSub(Join(pieces, " AND "), " AND ") == pieces <==> Separable(pieces)
  {
    var s := Join(pieces, " AND ");
    if |pieces| == 1 {
      assert pieces[0] == s;
    } else {
      var p, rest := pieces[0], Join(pieces[1..], " AND ");
      assert s == p + " AND " + rest;
      assert Separable(pieces) <==> FreeOfAnd(p + " ") && Separable(pieces[1..]) by {
        assert forall i | 0 <= i < |pieces| - 1 :: pieces[1..][i] == pieces[i + 1];
        SeparableTail(pieces);
      }
      if FreeOfAnd(p + " ") {
        forall j: nat | j < |p| ensures !OccursAt(s, " AND ", j) {
          AndBefore(p, rest, j);
        }
        CutAt(p, " AND ", rest);
        JoinedSeparable(pieces[1..]);
        assert SplitSub(s, " AND ") == [p] + SplitSub(rest, " AND ");
        assert pieces == [p] + pieces[1..];
        assert SplitSub(s, " AND ")[1..] == SplitSub(rest, " AND ");
      } else {
        AndFits(p, FindSub(p + " ", " AND ").value);
        AndBefore(p, rest, FindSub(p + " ", " AND ").value);
        assert |SplitSub(s, " AND ")[0]| < |p|;
      }
    }
  }

  lemma SeparableTail(pieces: seq<string>)
    requires |pieces| > 1
    ensures Separable(pieces) <==> FreeOfAnd(pieces[0] + " ") && Separable(pieces[1..])
  {
    var rest := pieces[1..];
    if FreeOfAnd(pieces[0] + " ") && Separable(rest) {
      forall i | 0 <= i < |pieces| ensures FreeOfAnd(if i < |pieces| - 1 then pieces[i] + " " else pieces[i]) {
        if i > 0 {
          assert rest[i - 1] == pieces[i];
        }
      }
    }
  }

  /** The value cannot be taken for a regular expression, nor for the end of its conjunct. */
  predicate Unambiguous(m: Matcher, last: bool) {
    && (m.op != Matches ==> !StartsWith(m.value, "~"))
    && FreeOfAnd(if last then m.value else m.value + " ")
  }

  predicate AllUnambiguous(ms: seq<Matcher>) {
    forall i | 0 <= i < |ms| :: Unambiguous(ms[i], i == |ms| - 1)
  }

  lemma RenderIsPrint(m: Matcher)
    ensures Render(m) == Print(FilterOf(m))
  {
    var shown := Negation(m.op == Differs) + (m.field + ":" + Tail(m.op == Matches, m.value));
    assert m.op == Differs ==> shown == "NOT " + m.field + ":" + m.value;
    assert m.op == Equals ==> shown == m.field + ":" + m.value;
    assert m.op == Matches ==> shown == m.field + ":~" + m.value;
  }

  /** A field name cannot be taken for a keyword and its blank. */
  lemma BodyAvoids(field: string, rest: string, keyword: string)
    requires Identifier(field) && |keyword| == 4 && keyword[3] == ' ' && ':' !in keyword
    ensures !StartsWith(field + ":" + rest, keyword)
  {
    IdentNotSpecial(field);
    var body := field + ":" + rest;
    var k := if |field| < 4 then |field| else 3;
    assert keyword[k] in keyword && (k < |field| ==> field[k] in field);
    assert body[k] == if |field| < 4 then ':' else field[3];
    assert body[k] != keyword[k];
  }

  lemma BodyReadBack(negated: bool, field: string, regex: bool, value: string)
    requires Identifier(field)
    ensures var r := ReadBody(negated, field + ":" + Tail(regex, value));
      r == Some(Filter(negated, regex, field, value)) <==> (regex || !StartsWith(value, "~"))
  {
    IdentNotSpecial(field);
    SplitOnceAt(field, ':', Tail(regex, value));
    assert ("~" + value)[1..] == value;
  }

  lemma BodyReadWhole(body: string)
    ensures ReadFilter("NOT " + body) == ReadBody(true, body)
    ensures !StartsWith(body, "NOT ") ==> ReadFilter(body) == ReadBody(false, body)
  {
    assert ("NOT " + body)[4..] == body;
  }

  lemma RenderRead(m: Matcher)
    requires Identifier(m.field)
    ensures ReadFilter(Render(m)) == Some(FilterOf(m)) <==> (m.op != Matches ==> !StartsWith(m.value, "~"))
  {
    var tail := Tail(m.op == Matches, m.value);
    var body := m.field + ":" + tail;
    assert Render(m) == if m.op == Differs then "NOT " + body else body by {
      RenderIsPrint(m);
      assert "" + body == body;
    }
    BodyAvoids(m.field, tail, "NOT ");
    BodyReadWhole(body);
    BodyReadBack(m.op == Differs, m.field, m.op == Matches, m.value);
  }

  lemma AndFromValue(head: string, tail: string, j: nat)
    requires forall c | c in head :: c != ' '
    ensures OccursAt(head + tail, " AND ", j) <==> j >= |head| && OccursAt(tail, " AND ", j - |head|)
  {
    var s := head + tail;
    AndAt(s, j);
    if j >= |head| {
      AndAt(tail, j - |head|);
    } else {
      assert s[j] == head[j] && head[j] in head;
    }
  }

  lemma AndOnlyInValue(head: string, tail: string)
    requires forall c | c in head :: c != ' '
    ensures FreeOfAnd(head + tail) <==> FreeOfAnd(tail)
  {
    forall j: nat {
      AndFromValue(head, tail, j);
    }
    if !FreeOfAnd(tail) {
      assert OccursAt(head + tail, " AND ", |head| + FindSub(tail, " AND ").value);
    }
  }

  lemma ShiftedAnd(tail: string, j: nat)
    requires !StartsWith(tail, "AND ")
    ensures OccursAt(" " + tail, " AND ", j) <==> j > 0 && OccursAt(tail, " AND ", j - 1)
  {
    var s := " " + tail;
    AndAt(s, j);
    if j > 0 {
      AndAt(tail, j - 1);
    } else if |tail| >= 4 {
      assert tail[..4] != "AND " && s[1..5] == tail[..4];
    }
  }

  lemma NotPrefixHarmless(tail: string)
    requires !StartsWith(tail, "AND ")
    ensures FreeOfAnd("NOT " + tail) <==> FreeOfAnd(tail)
  {
    var s := " " + tail;
    AndOnlyInValue("NOT", s);
    assert "NOT " + tail == "NOT" + s;
    forall j: nat {
      ShiftedAnd(tail, j);
    }
    if !FreeOfAnd(tail) {
      assert OccursAt(s, " AND ", FindSub(tail, " AND ").value + 1);
    }
  }

  lemma BodySeparable(field: string, tail: string, negated: bool)
    requires Identifier(field)
    ensures FreeOfAnd(Negation(negated) + (field + ":" + tail)) <==> FreeOfAnd(tail)
  {
    IdentNotSpecial(field);
    AndOnlyInValue(field + ":", tail);
    var body := field + ":" + tail;
    if negated {
      BodyAvoids(field, tail, "AND ");
      NotPrefixHarmless(body);
    } else {
      assert "" + body == body;
    }
  }

  lemma RenderSuffix(m: Matcher, suffix: string)
    ensures Render(m) + suffix == Render(m.(value := m.value + suffix))
  {
    match m.op
    case Equals => assert m.field + ":" + m.value + suffix == m.field + ":" + (m.value + suffix);
    case Differs => assert "NOT " + m.field + ":" + m.value + suffix == "NOT " + m.field + ":" + (m.value + suffix);
    case Matches => assert m.field + ":~" + m.value + suffix == m.field + ":~" + (m.value + suffix);
  }

  lemma RenderSeparable(m: Matcher, suffix: string)
    requires Identifier(m.field)
    ensures FreeOfAnd(Render(m) + suffix) <==> FreeOfAnd(m.value + suffix)
  {
    var longer := m.(value := m.value + suffix);
    RenderSuffix(m, suffix);
    RenderIsPrint(longer);
    BodySeparable(m.field, Tail(m.op == Matches, longer.value), m.op == Differs);
    AndOnlyInValue("~", longer.value);
  }

  /** The filters that a LogsQL text of joined conjuncts stands for. */
  function ReadText(text: string): seq<Option<Filter>> {
    ReadFilters(SplitSub(text, " AND "))
  }

  lemma {:induction false} ReadGivesPieces(pieces: seq<string>, ms: seq<Matcher>)
    requires ReadFilters(pieces) == Somes(FiltersOf(ms))
    ensures pieces == Rendered(ms)
  {
    assert |pieces| == |ReadFilters(pieces)| == |Somes(FiltersOf(ms))| == |ms|;
    forall i | 0 <= i < |ms| ensures pieces[i] == Rendered(ms)[i] {
      assert ReadFilters(pieces)[i] == Somes(FiltersOf(ms))[i];
      FilterRead(pieces[i]);
      RenderIsPrint(ms[i]);
    }
  }

  lemma AllRead(ms: seq<Matcher>)
    requires forall m | m in ms :: Identifier(m.field)
    ensures ReadFilters(Rendered(ms)) == Somes(FiltersOf(ms)) <==>
            forall i | 0 <= i < |ms| :: ms[i].op != Matches ==> !StartsWith(ms[i].value, "~")
  {
    var read, wanted := ReadFilters(Rendered(ms)), Somes(FiltersOf(ms));
    forall i | 0 <= i < |ms|
      ensures read[i] == wanted[i] <==> (ms[i].op != Matches ==> !StartsWith(ms[i].value, "~"))
    {
      assert ms[i] in ms;
      RenderRead(ms[i]);
    }
    assert read == wanted <==> forall i | 0 <= i < |ms| :: read[i] == wanted[i];
  }

  lemma AllSeparable(ms: seq<Matcher>)
    requires forall m | m in ms :: Identifier(m.field)
    ensures Separable(Rendered(ms)) <==>
            forall i | 0 <= i < |ms| :: FreeOfAnd(if i == |ms| - 1 then ms[i].value else ms[i].value + " ")
  {
    var pieces := Rendered(ms);
    forall i | 0 <= i < |ms|
      ensures FreeOfAnd(if i < |pieces| - 1 then pieces[i] + " " else pieces[i]) <==>
              FreeOfAnd(if i == |ms| - 1 then ms[i].value else ms[i].value + " ")
    {
      assert ms[i] in ms;
      RenderSeparable(ms[i], if i == |ms| - 1 then "" else " ");
      assert pieces[i] + "" == pieces[i] && ms[i].value + "" == ms[i].value;
    }
  }

  /**
   * The translation of a printed selector reads back as exactly its matchers, negated just where `!=` was
   * written, if and only if no value can be taken for a regular expression or for a separator.
   */
  lemma ReadBackExact(pad: string, ps: seq<Spaced>, pad': string)
    requires AllOf(pad, IsSpace) && AllOf(pad', IsSpace) && ps != [] && forall p | p in ps :: Printable(p)
    ensures var ms := Matchers(ps);
      ReadText(Convert(pad + Selector(ps) + pad')) == Somes(FiltersOf(ms)) <==> AllUnambiguous(ms)
  {
    var ms := Matchers(ps);
    SelectorConverted(pad, ps, pad');
    var text := Join(Rendered(ms), " AND ");
    forall m | m in ms ensures Identifier(m.field) {
      var i :| 0 <= i < |ps| && m == ps[i].m;
      assert ps[i] in ps;
    }
    JoinedSeparable(Rendered(ms));
    AllSeparable(ms);
    AllRead(ms);
    if ReadText(text) == Somes(FiltersOf(ms)) {
      ReadGivesPieces(SplitSub(text, " AND "), ms);
    }
  }

  // -------------------------------------------------------------------- meaning

  /** A stream's value for a label; a missing label reads as the empty string in both languages. */
  function ValueOf(labels: map<string, string>, field: string): string {
    if field in labels then labels[field] else ""
  }

  /** A Loki matcher on a stream; `fits(pattern, value)` is the regular expression engine. */
  predicate Selects(m: Matcher, labels: map<string, string>, fits: (string, string) -> bool) {
    match m.op
    case Equals => ValueOf(labels, m.field) == m.value
    case Differs => ValueOf(labels, m.field) != m.value
    case Matches => fits(m.value, ValueOf(labels, m.field))
  }

  predicate FilterHolds(f: Option<Filter>, labels: map<string, string>, fits: (string, string) -> bool) {
    && f.Some?
    && var v := ValueOf(labels, f.value.field);
    (if f.value.regex then fits(f.value.value, v) else v == f.value.value) != f.value.negated
  }

  /** A LogsQL text holds when all its conjuncts do. */
  predicate TextHolds(text: string, labels: map<string, string>, fits: (string, string) -> bool) {
    text == "*" || forall f | f in ReadText(text) :: FilterHolds(f, labels, fits)
  }

  lemma FiltersAgree(ms: seq<Matcher>, labels: map<string, string>, fits: (string, string) -> bool)
    ensures (forall f | f in Somes(FiltersOf(ms)) :: FilterHolds(f, labels, fits)) <==>
            (forall m | m in ms :: Selects(m, labels, fits))
  {
    var fs := Somes(FiltersOf(ms));
    forall i | 0 <= i < |ms| ensures FilterHolds(fs[i], labels, fits) <==> Selects(ms[i], labels, fits) {
      assert fs[i] == Some(FilterOf(ms[i]));
    }
    assert forall i | 0 <= i < |ms| :: fs[i] in fs && ms[i] in ms;
  }

  lemma StarIsNoFilter(ms: seq<Matcher>)
    requires ms != []
    ensures ReadText("*") != Somes(FiltersOf(ms))
  {
    assert FindSub("*", " AND ").None?;
    assert ReadText("*")[0] == ReadFilter("*") == None;
    assert Somes(FiltersOf(ms))[0].Some?;
  }

  /** The translation selects the same streams as the selector, for every label assignment and regular expression engine. */
  lemma MeaningPreserved(
    pad: string, ps: seq<Spaced>, pad': string, labels: map<string, string>, fits: (string, string) -> bool)
    requires AllOf(pad, IsSpace) && AllOf(pad', IsSpace) && forall p | p in ps :: Printable(p)
    requires AllUnambiguous(Matchers(ps))
    ensures TextHolds(Convert(pad + Selector(ps) + pad'), labels, fits) <==>
            forall m | m in Matchers(ps) :: Selects(m, labels, fits)
  {
    if ps == [] {
      SelectorConverted(pad, ps, pad');
    } else {
      ReadBackExact(pad, ps, pad');
      StarIsNoFilter(Matchers(ps));
      FiltersAgree(Matchers(ps), labels, fits);
    }
  }

  // ---------------------------------------------------- exactly when the meaning stays

  /** Where the first separator is found in a joined text. */
  lemma FirstOf(pieces: seq<string>)
    requires pieces != []
    ensures var suffix := if |pieces| > 1 then " " else "";
      var split := SplitSub(Join(pieces, " AND "), " AND ");
      match FindSub(pieces[0] + suffix, " AND ")
      case None => split[0] == pieces[0] && (|pieces| > 1 ==> split[1..] == SplitSub(Join(pieces[1..], " AND "), " AND "))
      case Some(k) => k < |pieces[0]| && split[0] == pieces[0][..k]
  {
    var p, s := pieces[0], Join(pieces, " AND ");
    if |pieces| == 1 {
      assert p + "" == p;
      if FindSub(p, " AND ").Some? {
        AndAt(p, FindSub(p, " AND ").value);
      }
    } else {
      var rest := Join(pieces[1..], " AND ");
      assert s == p + " AND " + rest;
      forall j: nat | j < |p| ensures OccursAt(s, " AND ", j) <==> OccursAt(p + " ", " AND ", j) {
        AndBefore(p, rest, j);
      }
      match FindSub(p + " ", " AND ") {
        case None => CutAt(p, " AND ", rest);
        case Some(k) =>
          AndFits(p, k);
          assert FindSub(s, " AND ") == Some(k);
          assert s[..k] == p[..k];
      }
    }
  }

  /** The pieces before the first one that is cut short are read as they were written. */
  lemma {:induction false} PieceAt(pieces: seq<string>, i: nat)
    requires i < |pieces| && forall k | 0 <= k < i :: FreeOfAnd(pieces[k] + " ")
    ensures var split := SplitSub(Join(pieces, " AND "), " AND ");
      i < |split| && split[i] == SplitSub(Join(pieces[i..], " AND "), " AND ")[0]
  {
    if i == 0 {
      assert pieces[0..] == pieces;
    } else {
      FirstOf(pieces);
      assert forall k | 0 <= k < i - 1 :: pieces[1..][k] == pieces[k + 1];
      PieceAt(pieces[1..], i - 1);
      assert pieces[1..][i - 1..] == pieces[i..];
      var split := SplitSub(Join(pieces, " AND "), " AND ");
      assert split[i] == split[1..][i - 1];
    }
  }

  lemma NotShift(body: string, j: nat)
    requires !StartsWith(body, "AND ")
    ensures OccursAt("NOT " + body, " AND ", j) <==> j >= 4 && OccursAt(body, " AND ", j - 4)
  {
    assert "NOT " + body == "NOT" + (" " + body);
    AndFromValue("NOT", " " + body, j);
    if j >= 3 {
      ShiftedAnd(body, j - 3);
    }
  }

  /** Separators in a rendered conjunct are those of its value. */
  lemma HeadShift(negated: bool, field: string, mark: string, value: string, j: nat)
    requires Identifier(field) && ' ' !in mark
    ensures var n := |Negation(negated)| + |field| + 1 + |mark|;
      OccursAt(Negation(negated) + (field + ":" + mark + value), " AND ", j) <==> j >= n && OccursAt(value, " AND ", j - n)
  {
    IdentNotSpecial(field);
    var head := field + ":" + mark;
    if negated {
      assert head + value == field + ":" + (mark + value);
      BodyAvoids(field, mark + value, "AND ");
      NotShift(head + value, j);
      if j >= 4 {
        AndFromValue(head, value, j - 4);
      }
    } else {
      assert "" + (head + value) == head + value;
      AndFromValue(head, value, j);
    }
  }

  function Mark(op: MatchOp): string {
    if op == Matches then "~" else ""
  }

  /** Everything of a rendered conjunct but its value. */
  function Head(m: Matcher): string {
    Negation(m.op == Differs) + (m.field + ":" + Mark(m.op))
  }

  lemma RenderHead(m: Matcher)
    ensures Render(m) == Head(m) + m.value
  {
    match m.op
    case Equals => assert Head(m) + m.value == m.field + ":" + m.value;
    case Differs => assert Head(m) + m.value == "NOT " + m.field + ":" + m.value;
    case Matches => assert Head(m) + m.value == m.field + ":~" + m.value;
  }

  lemma ValueShift(m: Matcher, value: string, j: nat)
    requires Identifier(m.field)
    ensures OccursAt(Head(m) + value, " AND ", j) <==> j >= |Head(m)| && OccursAt(value, " AND ", j - |Head(m)|)
  {
    var mark := Mark(m.op);
    assert Head(m) + value == Negation(m.op == Differs) + (m.field + ":" + mark + value);
    HeadShift(m.op == Differs, m.field, mark, value, j);
  }

  lemma FindShifted(s: string, t: string, n: nat)
    requires FindSub(t, " AND ").Some? ==> OccursAt(s, " AND ", n + FindSub(t, " AND ").value)
    requires FindSub(s, " AND ").Some? ==>
               FindSub(s, " AND ").value >= n && OccursAt(t, " AND ", FindSub(s, " AND ").value - n)
    ensures FindSub(s, " AND ") == match FindSub(t, " AND ") case None => None case Some(k) => Some(n + k)
  {
  }

  /** A text in front of which separators neither arise nor vanish. */
  ghost predicate Neutral(head: string) {
    forall value, j: nat :: OccursAt(head + value, " AND ", j) <==> j >= |head| && OccursAt(value, " AND ", j - |head|)
  }

  lemma HeadNeutral(m: Matcher)
    requires Identifier(m.field)
    ensures Neutral(Head(m))
  {
    var head := Head(m);
    forall value, j: nat ensures OccursAt(head + value, " AND ", j) <==> j >= |head| && OccursAt(value, " AND ", j - |head|) {
      ValueShift(m, value, j);
    }
  }

  lemma FoundAfter(head: string, value: string)
    requires Neutral(head)
    ensures FindSub(head + value, " AND ") ==
            match FindSub(value, " AND ") case None => None case Some(k) => Some(|head| + k)
  {
    FindShifted(head + value, value, |head|);
  }

  lemma FoundInValue(m: Matcher, value: string)
    requires Identifier(m.field)
    ensures FindSub(Head(m) + value, " AND ") ==
            match FindSub(value, " AND ") case None => None case Some(k) => Some(|Head(m)| + k)
  {
    HeadNeutral(m);
    FoundAfter(Head(m), value);
  }

  lemma Regroup(head: string, value: string, suffix: string, k: nat)
    requires k <= |value|
    ensures head + value + suffix == head + (value + suffix)
    ensures (head + value)[..|head| + k] == head + value[..k]
  {
  }

  lemma CutInside(value: string, suffix: string, k: nat)
    requires |suffix| <= 1 && FindSub(value + suffix, " AND ") == Some(k)
    ensures k < |value|
  {
    AndAt(value + suffix, k);
  }

  /** A conjunct that is cut short reads as the conjunct of a shorter value. */
  lemma CutShort(m: Matcher, suffix: string, k: nat)
    requires Identifier(m.field) && |suffix| <= 1 && FindSub(m.value + suffix, " AND ") == Some(k)
    ensures k < |m.value|
    ensures FindSub(Render(m) + suffix, " AND ") == Some(|Head(m)| + k)
    ensures |Head(m)| + k <= |Render(m)| && Render(m)[..|Head(m)| + k] == Render(m.(value := m.value[..k]))
  {
    var shorter := m.(value := m.value[..k]);
    CutInside(m.value, suffix, k);
    Regroup(Head(m), m.value, suffix, k);
    FoundInValue(m, m.value + suffix);
    RenderHead(m);
    RenderHead(shorter);
    assert Head(shorter) == Head(m);
  }

  /** How a rendered conjunct is read, whatever its value. */
  function ReadAs(m: Matcher): Filter {
    var (regex, value) := ReadTail(Tail(m.op == Matches, m.value));
    Filter(m.op == Differs, regex, m.field, value)
  }

  lemma RenderReadAs(m: Matcher)
    requires Identifier(m.field)
    ensures ReadFilter(Render(m)) == Some(ReadAs(m))
  {
    var tail := Tail(m.op == Matches, m.value);
    var body := m.field + ":" + tail;
    assert Render(m) == if m.op == Differs then "NOT " + body else body by {
      RenderIsPrint(m);
      assert "" + body == body;
    }
    IdentNotSpecial(m.field);
    SplitOnceAt(m.field, ':', tail);
    BodyAvoids(m.field, tail, "NOT ");
    BodyReadWhole(body);
  }

  /** The text that stands where matcher `m` was: its own, or that of a shorter value. */
  lemma ShownFirst(ms: seq<Matcher>, suffix: string) returns (shown: Matcher)
    requires ms != [] && Identifier(ms[0].field) && suffix == if |ms| == 1 then "" else " "
    ensures shown == ms[0] || (shown == ms[0].(value := shown.value) && |shown.value| < |ms[0].value|)
    ensures shown == ms[0] ==> FreeOfAnd(ms[0].value + suffix)
    ensures SplitSub(Join(Rendered(ms), " AND "), " AND ")[0] == Render(shown)
  {
    var m := ms[0];
    FirstOf(Rendered(ms));
    match FindSub(m.value + suffix, " AND ")
    case None => shown := m;
      RenderSeparable(m, suffix);
    case Some(k) => shown := m.(value := m.value[..k]);
      CutShort(m, suffix, k);
  }

  lemma EarlierFree(ms: seq<Matcher>, i: nat)
    requires i < |ms| && (forall m | m in ms :: Identifier(m.field)) && forall k | 0 <= k < i :: Unambiguous(ms[k], false)
    ensures forall k | 0 <= k < i :: FreeOfAnd(Rendered(ms)[k] + " ")
  {
    forall k | 0 <= k < i ensures FreeOfAnd(Rendered(ms)[k] + " ") {
      assert ms[k] in ms;
      RenderSeparable(ms[k], " ");
    }
  }

  lemma RenderedTail(ms: seq<Matcher>, i: nat)
    requires i < |ms|
    ensures Rendered(ms)[i..] == Rendered(ms[i..])
  {
  }

  /** What stands in the output where the first ambiguous matcher was: itself, or the matcher of a shorter value. */
  lemma Misread(ms: seq<Matcher>, i: nat) returns (shown: Matcher)
    requires i < |ms| && forall m | m in ms :: Identifier(m.field)
    requires !Unambiguous(ms[i], i == |ms| - 1) && forall k | 0 <= k < i :: Unambiguous(ms[k], false)
    ensures shown.op == ms[i].op && shown.field == ms[i].field
    ensures |shown.value| < |ms[i].value| || (shown == ms[i] && shown.op != Matches && StartsWith(shown.value, "~"))
    ensures var text := ReadText(Join(Rendered(ms), " AND ")); i < |text| && text[i] == Some(ReadAs(shown))
  {
    var m := ms[i];
    assert m in ms;
    EarlierFree(ms, i);
    PieceAt(Rendered(ms), i);
    RenderedTail(ms, i);
    shown := ShownFirst(ms[i..], if i == |ms| - 1 then "" else " ");
    assert m.value + "" == m.value;
    RenderReadAs(shown);
  }

  ghost predicate DistinctFields(ms: seq<Matcher>) {
    forall i, j | 0 <= i < j < |ms| :: ms[i].field != ms[j].field
  }

  /** A label value that satisfies a matcher as long as patterns fit what differs from `own`. */
  function Choice(m: Matcher, own: string): string {
    match m.op
    case Equals => m.value
    case Differs => m.value + "x"
    case Matches => own + "x"
  }

  /** Labels that satisfy all matchers but the `i`-th, whose field gets `own`. */
  function Satisfying(ms: seq<Matcher>, i: nat, own: string): map<string, string> {
    if ms == [] then map[]
    else
      var n := |ms| - 1;
      Satisfying(ms[..n], i, own)[ms[n].field := if n == i then own else Choice(ms[n], own)]
  }

  lemma {:induction false} SatisfyingExact(ms: seq<Matcher>, i: nat, own: string, k: nat)
    requires DistinctFields(ms) && k < |ms|
    ensures ms[k].field in Satisfying(ms, i, own)
    ensures Satisfying(ms, i, own)[ms[k].field] == if k == i then own else Choice(ms[k], own)
  {
    var n := |ms| - 1;
    if k < n {
      SatisfyingExact(ms[..n], i, own, k);
      assert ms[k].field != ms[n].field;
    }
  }

  /** A regular expression engine that fits everything but one value, for one pattern or for every pattern. */
  function Except(pattern: Option<string>, value: string): (string, string) -> bool {
    (p, v) => v != value || (pattern.Some? && p != pattern.value)
  }

  const ALWAYS: (string, string) -> bool := (p, v) => true

  lemma AllSelected(ms: seq<Matcher>, i: nat, own: string, fits: (string, string) -> bool)
    requires DistinctFields(ms) && i < |ms|
    requires forall p, v | v != own :: fits(p, v)
    requires match ms[i].op
             case Equals => own == ms[i].value
             case Differs => own != ms[i].value
             case Matches => fits(ms[i].value, own)
    ensures forall m | m in ms :: Selects(m, Satisfying(ms, i, own), fits)
  {
    forall k | 0 <= k < |ms| ensures Selects(ms[k], Satisfying(ms, i, own), fits) {
      SatisfyingExact(ms, i, own, k);
    }
  }

  /** Labels and an engine under which all matchers select a stream that the output does not. */
  lemma Disagreement(ms: seq<Matcher>, i: nat, shown: Matcher)
    returns (labels: map<string, string>, fits: (string, string) -> bool)
    requires DistinctFields(ms) && i < |ms| && shown.op == ms[i].op && shown.field == ms[i].field
    requires |shown.value| < |ms[i].value| || (shown == ms[i] && shown.op != Matches && StartsWith(shown.value, "~"))
    ensures forall m | m in ms :: Selects(m, labels, fits)
    ensures !FilterHolds(Some(ReadAs(shown)), labels, fits)
  {
    var m := ms[i];
    var own;
    match m.op {
      case Equals => own, fits := m.value, Except(None, m.value);
      case Differs => own, fits := if shown == m then m.value + "x" else shown.value, ALWAYS;
      case Matches => own, fits := "", Except(Some(shown.value), "");
    }
    labels := Satisfying(ms, i, own);
    AllSelected(ms, i, own, fits);
    SatisfyingExact(ms, i, own, i);
  }

  /** The output selects exactly the streams of the selector, whatever the labels and the engine. */
  ghost predicate SameStreams(text: string, ms: seq<Matcher>) {
    forall labels: map<string, string>, fits: (string, string) -> bool ::
      TextHolds(text, labels, fits) <==> forall m | m in ms :: Selects(m, labels, fits)
  }

  lemma JoinedIsLong(ms: seq<Matcher>)
    requires ms != [] && Identifier(ms[0].field)
    ensures Join(Rendered(ms), " AND ") != "*"
  {
    assert |Rendered(ms)[0]| >= 2;
  }

  lemma {:induction false} FirstAmbiguous(ms: seq<Matcher>, n: nat) returns (i: nat)
    requires n <= |ms| && exists k | 0 <= k < n :: !Unambiguous(ms[k], k == |ms| - 1)
    ensures i < n && !Unambiguous(ms[i], i == |ms| - 1) && forall k | 0 <= k < i :: Unambiguous(ms[k], false)
  {
    if exists k | 0 <= k < n - 1 :: !Unambiguous(ms[k], k == |ms| - 1) {
      i := FirstAmbiguous(ms, n - 1);
    } else {
      i := n - 1;
    }
  }

  lemma MeaningLost(ms: seq<Matcher>)
    requires DistinctFields(ms) && (forall m | m in ms :: Identifier(m.field)) && !AllUnambiguous(ms)
    ensures !SameStreams(Join(Rendered(ms), " AND "), ms)
  {
    var text := Join(Rendered(ms), " AND ");
    assert ms[0] in ms;
    JoinedIsLong(ms);
    var i := FirstAmbiguous(ms, |ms|);
    var shown := Misread(ms, i);
    var labels, fits := Disagreement(ms, i, shown);
    assert ReadText(text)[i] in ReadText(text);
    assert !TextHolds(text, labels, fits);
  }

  lemma MeaningKept(pad: string, ps: seq<Spaced>, pad': string)
    requires AllOf(pad, IsSpace) && AllOf(pad', IsSpace) && forall p | p in ps :: Printable(p)
    requires AllUnambiguous(Matchers(ps))
    ensures SameStreams(Convert(pad + Selector(ps) + pad'), Matchers(ps))
  {
    forall labels: map<string, string>, fits: (string, string) -> bool
      ensures TextHolds(Convert(pad + Selector(ps) + pad'), labels, fits) <==>
              forall m | m in Matchers(ps) :: Selects(m, labels, fits)
    {
      MeaningPreserved(pad, ps, pad', labels, fits);
    }
  }

  /**
   * For matchers on pairwise different labels, the translation means what the selector means exactly when no value can
   * be taken for a regular expression or for a separator. (Matchers on one label can contradict each other, and then
   * any translation of them that never holds means the same.)
   */
  lemma MeaningExact(pad: string, ps: seq<Spaced>, pad': string)
    requires AllOf(pad, IsSpace) && AllOf(pad', IsSpace) && forall p | p in ps :: Printable(p)
    requires DistinctFields(Matchers(ps))
    ensures SameStreams(Convert(pad + Selector(ps) + pad'), Matchers(ps)) <==> AllUnambiguous(Matchers(ps))
  {
    var ms := Matchers(ps);
    if AllUnambiguous(ms) {
      MeaningKept(pad, ps, pad');
    } else {
      SelectorConverted(pad, ps, pad');
      forall m | m in ms ensures Identifier(m.field) {
        var k :| 0 <= k < |ps| && m == ps[k].m;
        assert ps[k] in ps;
      }
      MeaningLost(ms);
    }
  }

  function One(m: Matcher): Spaced {
    Spaced("", "", "", "", m)
  }

  lemma PlainSelector(ms: seq<Matcher>, ps: seq<Spaced>)
    requires ms != [] && |ps| == |ms| && forall i | 0 <= i < |ms| :: ps[i] == One(ms[i])
    requires forall m | m in ms :: Identifier(m.field) && PlainValue(m.value)
    ensures Convert(Selector(ps)) == Join(Rendered(ms), " AND ")
  {
    assert Matchers(ps) == ms;
    forall p | p in ps ensures Printable(p) {
      var i :| 0 <= i < |ps| && p == ps[i];
      assert ms[i] in ms;
    }
    SelectorConverted("", ps, "");
    assert "" + Selector(ps) + "" == Selector(ps);
  }

  lemma TildeRenders(field: string, value: string)
    ensures Render(Matcher(Equals, field, "~" + value)) == Render(Matcher(Matches, field, value))
  {
    assert field + ":" + ("~" + value) == field + ":~" + value;
  }

  /** A literal that starts with a tilde is translated into a regular expression match. */
  lemma TildeCollides(field: string, value: string)
    requires Identifier(field) && PlainValue(value) && PlainValue("~" + value)
    ensures Convert(Selector([One(Matcher(Equals, field, "~" + value))])) ==
            Convert(Selector([One(Matcher(Matches, field, value))]))
  {
    var literal, regex := Matcher(Equals, field, "~" + value), Matcher(Matches, field, value);
    PlainSelector([literal], [One(literal)]);
    PlainSelector([regex], [One(regex)]);
    TildeRenders(field, value);
    assert Join(Rendered([literal]), " AND ") == Render(literal) && Join(Rendered([regex]), " AND ") == Render(regex);
  }

  lemma SeparatorRenders(field: string, value: string, other: string, rest: string)
    ensures var a, b := Matcher(Equals, field, value), Matcher(Equals, other, rest);
      Render(Matcher(Equals, field, value + " AND " + Render(b))) == Join(Rendered([a, b]), " AND ")
  {
    var a, b := Matcher(Equals, field, value), Matcher(Equals, other, rest);
    assert Rendered([a, b]) == [Render(a), Render(b)] && [Render(a), Render(b)][1..] == [Render(b)];
    assert Join([Render(a), Render(b)], " AND ") == Render(a) + " AND " + Render(b);
    assert field + ":" + (value + " AND " + Render(b)) == field + ":" + value + " AND " + Render(b);
  }

  /** A value that holds a separator is translated into two conjuncts. */
  lemma SeparatorCollides(field: string, value: string, other: string, rest: string)
    requires Identifier(field) && PlainValue(value) && Identifier(other) && PlainValue(rest)
    requires PlainValue(value + " AND " + Render(Matcher(Equals, other, rest)))
    ensures var a, b := Matcher(Equals, field, value), Matcher(Equals, other, rest);
      Convert(Selector([One(Matcher(Equals, field, value + " AND " + Render(b)))])) == Convert(Selector([One(a), One(b)]))
  {
    var a, b := Matcher(Equals, field, value), Matcher(Equals, other, rest);
    var whole := Matcher(Equals, field, value + " AND " + Render(b));
    PlainSelector([whole], [One(whole)]);
    PlainSelector([a, b], [One(a), One(b)]);
    SeparatorRenders(field, value, other, rest);
    assert Join(Rendered([whole]), " AND ") == Render(whole);
  }

  // --------------------------------------------------------------- fixed points

  function EqualsSigns(s: string): nat {
    multiset(s)['=']
  }

  function EqualsSignsIn(parts: seq<string>): nat {
    if parts == [] then 0 else EqualsSignsIn(parts[..|parts| - 1]) + EqualsSigns(parts[|parts| - 1])
  }

  lemma {:induction false} EqualsSignsFirst(parts: seq<string>)
    requires parts != []
    ensures EqualsSignsIn(parts) == EqualsSigns(parts[0]) + EqualsSignsIn(parts[1..])
  {
    if |parts| > 1 {
      var n := |parts| - 1;
      EqualsSignsFirst(parts[..n]);
      assert parts[..n][1..] == parts[1..][..n - 1];
    }
  }

  lemma {:induction false} EqualsSignsJoined(parts: seq<string>, sep: string)
    requires '=' !in sep
    ensures EqualsSigns(Join(parts, sep)) == EqualsSignsIn(parts)
  {
    if |parts| > 1 {
      EqualsSignsJoined(parts[1..], sep);
      EqualsSignsFirst(parts);
    } else if |parts| == 1 {
      EqualsSignsFirst(parts);
    }
  }

  lemma EqualsSignsTrimmed(s: string, p: char -> bool)
    ensures EqualsSigns(TrimBy(s, p)) <= EqualsSigns(s)
  {
    var a, b := TrimShape(s, p);
    assert multiset(s) == multiset(a) + multiset(TrimBy(s, p)) + multiset(b);
  }

  lemma TailEquals(regex: bool, value: string)
    ensures EqualsSigns(Tail(regex, value)) == EqualsSigns(value)
  {
    assert multiset("~" + value) == multiset("~") + multiset(value);
  }

  lemma PrintedEquals(f: Filter)
    ensures EqualsSigns(Print(f)) == EqualsSigns(f.field) + EqualsSigns(f.value)
  {
    var tail := Tail(f.regex, f.value);
    var body := f.field + ":" + tail;
    TailEquals(f.regex, f.value);
    assert multiset(Print(f)) == multiset(Negation(f.negated)) + multiset(body);
    assert multiset(body) == multiset(f.field) + multiset(":") + multiset(tail);
    assert EqualsSigns(Negation(f.negated)) == 0;
  }

  lemma RenderedSide(op: MatchOp, part: string, sides: (string, string))
    requires part == sides.0 + OpText(op) + sides.1
    ensures EqualsSigns(Render(Side(op, sides))) < EqualsSigns(part)
  {
    EqualsSignsTrimmed(sides.0, IsSpace);
    EqualsSignsTrimmed(sides.1, IsSpace);
    EqualsSignsTrimmed(Trim(sides.1), IsQuote);
    var m := Side(op, sides);
    RenderIsPrint(m);
    PrintedEquals(FilterOf(m));
    assert multiset(part) == multiset(sides.0) + multiset(OpText(op)) + multiset(sides.1);
    assert EqualsSigns(OpText(op)) == 1;
  }

  /** Every conjunct has lost the equals sign of its operator. */
  lemma {:induction false} ConjunctsLoseEquals(parts: seq<string>)
    ensures EqualsSignsIn(Conjuncts(parts)) + |Conjuncts(parts)| <= EqualsSignsIn(parts)
  {
    if parts != [] {
      var n := |parts| - 1;
      ConjunctsLoseEquals(parts[..n]);
      var part := Trim(parts[n]);
      EqualsSignsTrimmed(parts[n], IsSpace);
      var m := ParsePart(part);
      if m.Some? {
        var regex, differs := Cut(part, "=~"), Cut(part, "!=");
        if regex.Some? {
          RenderedSide(Matches, part, regex.value);
        } else if differs.Some? {
          RenderedSide(Differs, part, differs.value);
        } else {
          RenderedSide(Equals, part, Cut(part, "=").value);
        }
        var before := Conjuncts(parts[..n]);
        assert Conjuncts(parts) == before + [Render(m.value)];
        assert (before + [Render(m.value)])[..|before|] == before;
      }
    }
  }

  lemma FewerEquals(inner: string)
    ensures var found := Conjuncts(Split(inner, ','));
      EqualsSigns(Join(found, " AND ")) + |found| <= EqualsSigns(inner)
  {
    var parts := Split(inner, ',');
    SplitJoin(inner, ',');
    EqualsSignsJoined(parts, ",");
    EqualsSignsJoined(Conjuncts(parts), " AND ");
    ConjunctsLoseEquals(parts);
  }

  lemma InnerEquals(q: string)
    requires BraceWrapped(q)
    ensures EqualsSigns(Inner(q)) <= EqualsSigns(q)
  {
    assert multiset(q) == multiset("{") + multiset(Inner(q)) + multiset("}");
  }

  lemma WrappedChanges(q: string)
    requires BraceWrapped(Trim(q))
    ensures Convert(q) != q
  {
    var t := Trim(q);
    assert t[0] == '{';
    TrimBare("*", IsSpace);
    FewerEquals(Inner(t));
    InnerEquals(t);
    EqualsSignsTrimmed(q, IsSpace);
  }

  /** Exactly the non-empty trimmed texts that are not selectors are left alone. */
  lemma FixedExactly(q: string)
    ensures Convert(q) == q <==> q != "" && Bare(q, IsSpace) && !BraceWrapped(q)
  {
    var a, b := TrimShape(q, IsSpace);
    if Bare(q, IsSpace) {
      TrimBare(q, IsSpace);
    }
    if BraceWrapped(Trim(q)) {
      WrappedChanges(q);
    }
    TrimBare("*", IsSpace);
  }

  lemma {:induction false} JoinEnds(parts: seq<string>, sep: string)
    requires parts != [] && forall i | 0 <= i < |parts| :: parts[i] != ""
    ensures Join(parts, sep) != "" && Join(parts, sep)[0] == parts[0][0]
    ensures var s, last := Join(parts, sep), parts[|parts| - 1]; s[|s| - 1] == last[|last| - 1]
  {
    if |parts| > 1 {
      JoinEnds(parts[1..], sep);
    }
  }

  lemma RenderEnds(m: Matcher)
    requires Identifier(m.field) && PlainValue(m.value)
    ensures var s := Render(m); s != "" && s[0] != '{' && !IsSpace(s[0]) && !IsSpace(s[|s| - 1])
  {
    IdentNotSpecial(m.field);
    var s := Render(m);
    assert s[0] == if m.op == Differs then 'N' else m.field[0];
    assert s[|s| - 1] == if m.value != "" then m.value[|m.value| - 1] else if m.op == Matches then '~' else ':';
  }

  /** Translating a translated selector again changes nothing. */
  lemma TranslationStable(pad: string, ps: seq<Spaced>, pad': string)
    requires AllOf(pad, IsSpace) && AllOf(pad', IsSpace) && forall p | p in ps :: Printable(p)
    ensures var text := Convert(pad + Selector(ps) + pad'); Convert(text) == text
  {
    SelectorConverted(pad, ps, pad');
    if ps == [] {
      TrimBare("*", IsSpace);
    } else {
      var pieces := Rendered(Matchers(ps));
      forall i | 0 <= i < |ps|
        ensures pieces[i] != "" && pieces[i][0] != '{' && !IsSpace(pieces[i][0]) && !IsSpace(pieces[i][|pieces[i]| - 1])
      {
        assert ps[i] in ps;
        RenderEnds(ps[i].m);
      }
      JoinEnds(pieces, " AND ");
      FixedExactly(Join(pieces, " AND "));
    }
  }
}
