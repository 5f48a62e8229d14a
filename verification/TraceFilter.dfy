/** Filter expressions over traces: scanning, bracket matching, parsing, testing and printing. */
module TraceFilter {
  import opened Lists
  import opened Powers

  datatype Op = Eq | Gt | Ge | Lt | Le | Ne

  datatype Node = Leaf(field: string, op: Op, v: nat) | And(left: Node, right: Node) | Or(left: Node, right: Node)

  /** The value of a field in a trace. */
  type Trace = string -> nat

  /** `sscanf`: one number, or the four of a flow, or the three of a queue. */
  datatype Reader = Reader(num: string -> nat, flow: string -> Option<(nat, nat, nat, nat)>,
                           queue: string -> Option<(nat, nat, nat)>)

  // ---- testing ----

  function Compare(op: Op, x: nat, y: nat): bool {
    match op
    case Eq => x == y
    case Gt => x > y
    case Ge => x >= y
    case Lt => x < y
    case Le => x <= y
    case Ne => x != y
  }

  function Test(n: Node, tr: Trace): bool {
    match n
    case Leaf(field, op, v) => Compare(op, tr(field), v)
    case And(l, r) => Test(l, tr) && Test(r, tr)
    case Or(l, r) => Test(l, tr) || Test(r, tr)
  }

  /** The field is stored in so many values; none for an unknown field. */
  function Range(field: string): (r: Option<nat>)
    ensures r.Some? ==> r.value > 0
  {
    if field == "nodeType" || field == "intf" || field == "qidx" || field == "l3Prot" || field == "event" ||
      field == "ecn" || field == "ack.flags"
    then Some(0x100)
    else if field == "node" || field == "size" || field == "data.sport" || field == "data.dport" ||
            field == "ack.sport" || field == "ack.dport" ||
            field == "qp.sport" || field == "qp.dport"
    then Some(0x1_0000)
    else if field == "qlen" || field == "sip" || field == "dip" || field == "data.seq" then Some(0x1_0000_0000)
    else if field == "time" then Some(0x1_0000_0000_0000_0000)
    else None
  }

  /** `GetField`. */
  function GetField(rd: Reader, field: string, op: Op, value: string): Option<Node> {
    match Range(field)
    case None => None
    case Some(range) => Some(Leaf(field, op, rd.num(value) % range))
  }

  // ---- scanning ----

  predicate IsSpace(c: char) {
    c == ' ' || '\U{9}' <= c <= '\r'
  }

  predicate IsField(c: char) {
    'a' <= c <= 'z' || 'A' <= c <= 'Z' || '0' <= c <= '9' || c == '.'
  }

  predicate IsValue(c: char) {
    c == 'x' || c == ',' || '0' <= c <= '9' || 'a' <= c <= 'f' || 'A' <= c <= 'F'
  }

  /** The characters of fields, of values and of the space between them. */
  lemma {:induction false} CharClasses(c: char)
    ensures IsSpace(c) <==> c in "\U{9}\n\U{B}\U{C}\r "
    ensures IsValue(c) <==> c in "0123456789abcdefABCDEFx,"
    ensures IsField(c) <==>
            c in "0123456789." || c in "abcdefghijklmnopqrstuvwxyz" || c in "ABCDEFGHIJKLMNOPQRSTUVWXYZ"
  {
  }

  /** The end of the longest run of such characters from `i`. */
  function Span(p: char -> bool, s: string, i: nat): (r: nat)
    requires i <= |s|
    ensures i <= r <= |s| && (r < |s| ==> !p(s[r])) && forall k :: i <= k < r ==> p(s[k])
    decreases |s| - i
  {
    if i < |s| && p(s[i]) then Span(p, s, i + 1) else i
  }

  lemma {:induction false} SpanIs(p: char -> bool, s: string, i: nat, r: nat)
    requires i <= r <= |s| && (forall k :: i <= k < r ==> p(s[k])) && (r < |s| ==> !p(s[r]))
    ensures Span(p, s, i) == r
  {
  }

  method SkipSpace(i0: nat, str: string) returns (i: nat)
    requires i0 <= |str|
    ensures i == Span(IsSpace, str, i0)
  {
    i := i0;
    while i < |str| && IsSpace(str[i])
      invariant i0 <= i <= |str| && forall k :: i0 <= k < i ==> IsSpace(str[k])
    {
      i := i + 1;
    }
    SpanIs(IsSpace, str, i0, i);
  }

  /** The operator at `i` and its length. */
  function ScanOp(s: string, i: nat): (r: Option<(Op, nat)>)
    requires i <= |s|
    ensures r.Some? ==> i + r.value.1 <= |s|
  {
    var eq := i + 1 < |s| && s[i+1] == '=';
    if i == |s| then None
    else if s[i] == '=' then Some((Eq, 1))
    else if s[i] == '>' then Some(if eq then (Ge, 2) else (Gt, 1))
    else if s[i] == '<' then Some(if eq then (Le, 2) else (Lt, 1))
    else if s[i] == '!' && eq then Some((Ne, 2))
    else None
  }

  datatype Base = Base(field: string, op: Op, value: string, end: nat)

  /** A base expression at the start of `s`, with the spaces around it. */
  function ScanBase(s: string): (r: Option<Base>)
    ensures r.Some? ==> r.value.end <= |s|
  {
    var a := Span(IsSpace, s, 0);
    var b := Span(IsField, s, a);
    var c := Span(IsSpace, s, b);
    var op := ScanOp(s, c);
    if a == b || op.None? then None else
    var d := Span(IsSpace, s, c + op.value.1);
    var e := Span(IsValue, s, d);
    if d == e then None else Some(Base(s[a..b], op.value.0, s[d..e], Span(IsSpace, s, e)))
  }

  // ---- brackets ----

  /** The bracket depth after `a`, from depth `c`; nothing when a bracket closes that `a` did not open. */
  function Depth(a: string, c: nat): Option<nat>
    decreases |a|
  {
    if a == "" then Some(c)
    else if a[0] == '(' then Depth(a[1..], c + 1)
    else if a[0] == ')' then (if c <= 1 then None else Depth(a[1..], c - 1))
    else Depth(a[1..], c)
  }

  /** Where the bracket closes that leaves depth `c` at `i`; the length of `s` if nowhere. */
  function Close(s: string, i: nat, c: nat): (r: nat)
    requires i <= |s|
    ensures i <= r <= |s|
    decreases |s| - i
  {
    if i == |s| then |s|
    else if s[i] == ')' && c <= 1 then i
    else Close(s, i + 1, if s[i] == '(' then c + 1 else if s[i] == ')' then c - 1 else c)
  }

  /** The bracket after balanced text is the one that is found. */
  lemma {:induction false} CloseAfter(s: string, i: nat, a: string, c: nat)
    requires i + |a| < |s| && s[i..i+|a|] == a && s[i+|a|] == ')' && Depth(a, c) == Some(1) && c >= 1
    ensures Close(s, i, c) == i + |a|
    decreases |a|
  {
    if a != "" {
      assert s[i] == a[0] && s[i+1..i+1+|a[1..]|] == a[1..];
      CloseAfter(s, i + 1, a[1..], if a[0] == '(' then c + 1 else if a[0] == ')' then c - 1 else c);
    }
  }

  /** A bracket that is found is one, and the text up to it is balanced. */
  lemma {:induction false} CloseFinds(s: string, i: nat, c: nat)
    requires i <= |s| && Close(s, i, c) < |s| && c >= 1
    ensures var r := Close(s, i, c); s[r] == ')' && Depth(s[i..r], c) == Some(1)
    decreases |s| - i
  {
    var r := Close(s, i, c);
    if i == r {
      assert s[i..r] == "";
    } else {
      assert s[i..r][1..] == s[i+1..r];
      CloseFinds(s, i + 1, if s[i] == '(' then c + 1 else if s[i] == ')' then c - 1 else c);
    }
  }

  /** The bracket-matching loop, from an opening bracket. */
  method FindClose(s: string, start: nat) returns (i: nat)
    requires start < |s|
    ensures i == Close(s, start + 1, 1)
  {
    var c := 1;
    i := start + 1;
    while i < |s| && (s[i] != ')' || c > 1)
      invariant i <= |s| && c >= 1 && Close(s, start + 1, 1) == Close(s, i, c)
      decreases |s| - i
    {
      if s[i] == '(' {
        c := c + 1;
      } else if s[i] == ')' {
        c := c - 1;
      }
      i := i + 1;
    }
  }

  /** Brackets at `i` and `e` enclose all of `s` but spaces: the one at `i` opens what the one at `e` closes. */
  ghost predicate EnclosedAt(s: string, i: nat, e: nat) {
    i < e < |s| && s[i] == '(' && s[e] == ')' && (forall k :: 0 <= k < i ==> IsSpace(s[k])) &&
    (forall k :: e < k < |s| ==> IsSpace(s[k])) && Depth(s[i+1..e], 1) == Some(1)
  }

  ghost predicate Enclosed(s: string) {
    exists i: nat, e: nat :: EnclosedAt(s, i, e)
  }

  /** Taking enclosing brackets off `s`, with the spaces around them, some number of times gives `r`. */
  ghost predicate Peels(s: string, r: string)
    decreases |s|
  {
    s == r || exists i: nat, e: nat :: EnclosedAt(s, i, e) && Peels(s[i+1..e], r)
  }

  /** `strip_outer_bracket`. */
  function Strip(s: string): (r: string)
    ensures |r| <= |s|
    decreases |s|
  {
    var i := Span(IsSpace, s, 0);
    if i == |s| || s[i] != '(' then s else
    var end := Close(s, i + 1, 1);
    if end == |s| || Span(IsSpace, s, end + 1) < |s| then s else Strip(s[i+1..end])
  }

  lemma {:induction false} StripOnce(s: string, i: nat, e: nat)
    requires i < e < |s| && s[i] == '(' && Span(IsSpace, s, 0) == i && Close(s, i + 1, 1) == e
    requires Span(IsSpace, s, e + 1) == |s|
    ensures Strip(s) == Strip(s[i+1..e])
  {
    hide Span, Close, IsSpace;
  }

  /** One pair of enclosing brackets more makes no difference. */
  lemma {:induction false} StripEnclosed(s: string, i: nat, e: nat)
    requires EnclosedAt(s, i, e)
    ensures Strip(s) == Strip(s[i+1..e])
  {
    hide Strip, Span, Close, Depth;
    SpanIs(IsSpace, s, 0, i);
    CloseAfter(s, i + 1, s[i+1..e], 1);
    SpanIs(IsSpace, s, e + 1, |s|);
    StripOnce(s, i, e);
  }

  lemma {:induction false} StripFree(s: string)
    requires !Enclosed(s)
    ensures Strip(s) == s
  {
    var i := Span(IsSpace, s, 0);
    if i < |s| && s[i] == '(' && Close(s, i + 1, 1) < |s| {
      var e := Close(s, i + 1, 1);
      CloseFinds(s, i + 1, 1);
      hide Span, Close;
      assert Span(IsSpace, s, e + 1) < |s| by {
        assert !EnclosedAt(s, i, e);
      }
    }
  }

  /** What is left is what enclosing brackets can be peeled to and has none itself, and there is only one such text. */
  lemma {:induction false} StripPeels(s: string, r: string)
    ensures r == Strip(s) <==> Peels(s, r) && !Enclosed(r)
    decreases |s|
  {
    hide EnclosedAt, Strip, Depth;
    if Enclosed(s) {
      forall i: nat, e: nat | EnclosedAt(s, i, e)
        ensures i < e < |s| && (r == Strip(s) <==> Peels(s[i+1..e], r) && !Enclosed(r))
      {
        EnclosedWithin(s, i, e);
        StripEnclosed(s, i, e);
        StripPeels(s[i+1..e], r);
      }
    } else {
      StripFree(s);
    }
  }

  lemma {:induction false} EnclosedWithin(s: string, i: nat, e: nat)
    requires EnclosedAt(s, i, e)
    ensures i < e < |s|
  {
  }

  method StripOuterBracket(expr: string) returns (r: string)
    ensures Peels(expr, r) && !Enclosed(r) && r == Strip(expr)
    decreases |expr|
  {
    StripPeels(expr, Strip(expr));
    hide Peels, Enclosed;
    var i := SkipSpace(0, expr);
    if i < |expr| && expr[i] == '(' {
      var end := FindClose(expr, i);
      if end >= |expr| {
        return expr;
      }
      var k := SkipSpace(end + 1, expr);
      if k >= |expr| {
        r := StripOuterBracket(expr[i+1..end]);
        return;
      }
    }
    r := expr;
  }

  // ---- parsing ----

  /** What `.` of the regular expressions matches. */
  predicate InLine(c: char) {
    c != '\n' && c != '\r'
  }

  predicate OneLine(s: string) {
    forall k :: 0 <= k < |s| ==> InLine(s[k])
  }

  predicate IsJoin(c: char) {
    c == '&' || c == '|'
  }

  function Join(c: char, l: Node, r: Option<Node>): Option<Node> {
    if r.None? then None else if c == '&' then Some(And(l, r.value)) else Some(Or(l, r.value))
  }

  /** `_parse`; shorthands expand only when `short` (their expansions hold none). */
  function Parse(rd: Reader, short: bool, expr: string): Option<Node>
    decreases if short then 2 else 0, |expr|, 2
  {
    ParseStripped(rd, short, Strip(expr))
  }

  function ParseStripped(rd: Reader, short: bool, s: string): Option<Node>
    decreases if short then 2 else 0, |s|, 1
  {
    var base := ScanBase(s);
    if base.Some? && base.value.end == |s| then
      ParseLeaf(rd, short, base.value)
    else if base.Some? && IsJoin(s[base.value.end]) && OneLine(s[base.value.end+1..]) then
      match ParseLeaf(rd, short, base.value)
      case None => None
      case Some(l) => Join(s[base.value.end], l, Parse(rd, short, s[base.value.end+1..]))
    else
      ParseBracket(rd, short, s)
  }

  /** A bracket first, then the operator and the rest of the line. */
  function ParseBracket(rd: Reader, short: bool, s: string): Option<Node>
    decreases if short then 2 else 0, |s|, 0
  {
    var i := Span(IsSpace, s, 0);
    if i == |s| || s[i] != '(' then None else
    var end := Close(s, i + 1, 1);
    if end == |s| then None else
    var k := Span(IsSpace, s, end + 1);
    match Parse(rd, short, s[i+1..end])
    case None => None
    case Some(l) =>
      if k == |s| || !IsJoin(s[k]) then None else
      var n := Span(InLine, s, k + 1);  // after the line only spaces may follow
      if Span(IsSpace, s, n) < |s| then None else Join(s[k], l, Parse(rd, short, s[k+1..n]))
  }

  /** A base expression: a field, or else a shorthand. */
  function ParseLeaf(rd: Reader, short: bool, b: Base): Option<Node>
    decreases if short then 2 else 0, 0, 0
  {
    var leaf := GetField(rd, b.field, b.op, b.value);
    if leaf.Some? then leaf else if short then ParseShorthand(rd, b.field, b.op, b.value) else None
  }

  function ParseShorthand(rd: Reader, name: string, op: Op, value: string): Option<Node>
    decreases 1, 0, 0
  {
    if name == "flow" || name == "biflow" || name == "rflow" then
      if op != Eq then None else
      match rd.flow(value)
      case None => None
      case Some((sip, dip, sport, dport)) =>
        Parse(rd, false, if name == "flow" then FlowText(sip, dip, sport, dport)
                         else if name == "rflow" then FlowText(dip, sip, dport, sport)
                         else
                           "(" + FlowText(sip, dip, sport, dport) + ")" +
                           ("|" + ("(" + FlowText(dip, sip, dport, sport) + ")")))
    else if name == "queue" then
      if op != Eq then None else
      match rd.queue(value)
      case None => None
      case Some((node, intf, qidx)) => Parse(rd, false, QueueText(node, intf, qidx))
    else None
  }

  // ---- printing ----

  function OpText(op: Op): string {
    match op
    case Eq => "="
    case Gt => ">"
    case Ge => ">="
    case Lt => "<"
    case Le => "<="
    case Ne => "!="
  }

  function Text(field: string, op: Op, value: string): string {
    field + OpText(op) + value
  }

  /** A number in decimal digits. */
  function Dec(n: nat): (r: string)
    ensures |r| > 0 && forall k :: 0 <= k < |r| ==> '0' <= r[k] <= '9'
  {
    if n < 10 then [('0' as int + n) as char] else Dec(n / 10) + [('0' as int + n % 10) as char]
  }

  function Equal(field: string, n: nat): string {
    Text(field, Eq, Dec(n))
  }

  function DataText(sport: nat, dport: nat): string {
    Text("l3Prot", Eq, "17") + ("&" + (Equal("data.sport", sport) + ("&" + Equal("data.dport", dport))))
  }

  function AckText(sport: nat, dport: nat): string {
    "(" + (Text("l3Prot", Eq, "0xFC") + ("|" + Text("l3Prot", Eq, "0xFD"))) + ")" +
      ("&" + (Equal("ack.sport", sport) + ("&" + Equal("ack.dport", dport))))
  }

  function QpText(sport: nat, dport: nat): string {
    Text("l3Prot", Eq, "0x0") + ("&" + (Equal("qp.sport", sport) + ("&" + Equal("qp.dport", dport))))
  }

  function PortsText(sport: nat, dport: nat): string {
    "(" + DataText(sport, dport) + ")" +
      ("|" + ("(" + AckText(sport, dport) + ")" + ("|" + ("(" + QpText(sport, dport) + ")"))))
  }

  function FlowText(sip: nat, dip: nat, sport: nat, dport: nat): string {
    Equal("sip", sip) + ("&" + (Equal("dip", dip) + ("&" + ("(" + PortsText(sport, dport) + ")"))))
  }

  function QueueText(node: nat, intf: nat, qidx: nat): string {
    Equal("node", node) + ("&" + (Equal("intf", intf) + ("&" + Equal("qidx", qidx))))
  }

  // ---- scanning printed text ----

  /** A field, an operator and a value as they are written in an expression. */
  predicate Written(field: string, value: string) {
    |field| > 0 && |value| > 0 && (forall k :: 0 <= k < |field| ==> IsField(field[k])) &&
    forall k :: 0 <= k < |value| ==> IsValue(value[k])
  }

  lemma {:induction false} TextAt(field: string, op: Op, value: string, rest: string)
    ensures var (s, a, c) := (Text(field, op, value) + rest, |field|, |OpText(op)|);
            |s| == a + c + |value| + |rest| && s[..a] == field && s[a+c..a+c+|value|] == value &&
            (forall k :: 0 <= k < a ==> s[k] == field[k]) && (forall k :: 0 <= k < c ==> s[a+k] == OpText(op)[k]) &&
            (forall k :: a + c <= k < a + c + |value| ==> s[k] == value[k-a-c]) &&
            (rest != "" ==> s[a+c+|value|] == rest[0])
  {
    hide OpText;
    PartsAt(field, OpText(op), value, rest);
  }

  lemma {:induction false} PartsAt(f: string, m: string, v: string, rest: string)
    ensures var (s, a, c) := (f + m + v + rest, |f|, |m|);
            |s| == a + c + |v| + |rest| && s[..a] == f && s[a+c..a+c+|v|] == v &&
            (forall k :: 0 <= k < a ==> s[k] == f[k]) && (forall k :: 0 <= k < c ==> s[a+k] == m[k]) &&
            (forall k :: a + c <= k < a + c + |v| ==> s[k] == v[k-a-c]) && (rest != "" ==> s[a+c+|v|] == rest[0])
  {
  }

  /** A run of characters and what follows it. */
  lemma {:induction false} RunAt(p: char -> bool, s: string, i: nat, run: string, rest: string)
    requires i <= |s| && s[i..] == run + rest && (forall k :: 0 <= k < |run| ==> p(run[k]))
    requires rest != "" ==> !p(rest[0])
    ensures Span(p, s, i) == i + |run| <= |s| && s[i+|run|..] == rest && s[i..i+|run|] == run
  {
    hide Span;
    assert forall k :: i <= k < i + |run| ==> s[k] == s[i..][k-i];
    assert rest != "" ==> s[i+|run|] == s[i..][|run|];
    SpanIs(p, s, i, i + |run|);
  }

  lemma {:induction false} OpAt(s: string, i: nat, op: Op, rest: string)
    requires i <= |s| && s[i..] == OpText(op) + rest && rest != "" && rest[0] != '='
    ensures ScanOp(s, i) == Some((op, |OpText(op)|)) && s[i+|OpText(op)|..] == rest
  {
    assert s[i] == s[i..][0] && s[i+1] == s[i..][1];
    var n := |OpText(op)|;
    assert s[i+n..] == s[i..][n..] == rest;
    assert n == 1 ==> s[i+1] == rest[0];
  }

  ghost predicate Blanks(s: string) {
    forall k :: 0 <= k < |s| ==> IsSpace(s[k])
  }

  /** A field and a value with spaces around the parts, at the end of the text or before a joining character. */
  ghost predicate Scannable(a: string, field: string, b: string, c: string, value: string, d: string, rest: string) {
    Written(field, value) && Blanks(a) && Blanks(b) && Blanks(c) && Blanks(d) && (rest != "" ==> IsJoin(rest[0]))
  }

  /** What a base expression may look like: spaces before and after each of its parts. */
  ghost function Spaced(a: string, field: string, b: string, op: Op, c: string, value: string, d: string,
                        rest: string): string
  {
    a + (field + (b + (OpText(op) + (c + (value + (d + rest))))))
  }

  lemma {:induction false} SpacedField(a: string, field: string, b: string, op: Op, c: string, value: string,
                                      d: string, rest: string)
    requires Scannable(a, field, b, c, value, d, rest)
    ensures var (s, i) := (Spaced(a, field, b, op, c, value, d, rest), |a| + |field|);
            i <= |s| && Span(IsSpace, s, 0) == |a| && Span(IsField, s, |a|) == i && s[|a|..i] == field
    ensures Spaced(a, field, b, op, c, value, d, rest)[|a|+|field|..] ==
            b + (OpText(op) + (c + (value + (d + rest))))
  {
    hide Spaced, Span, ScanOp, ScanBase, OpText, Blanks, IsSpace, IsField, IsValue, IsJoin;
    var (s, tail) := (Spaced(a, field, b, op, c, value, d, rest), c + (value + (d + rest)));
    SpacedParts(a, field, b, op, c, value, d, rest);
    AfterField(b, op, tail);
    FieldRun(s, a, field, b + (OpText(op) + tail));
  }

  lemma {:induction false} SpacedOp(a: string, field: string, b: string, op: Op, c: string, value: string,
                                   d: string, rest: string)
    requires Scannable(a, field, b, c, value, d, rest)
    ensures var (s, i) := (Spaced(a, field, b, op, c, value, d, rest), |a| + |field|);
            i + |b| + |OpText(op)| <= |s| && Span(IsSpace, s, i) == i + |b| &&
            ScanOp(s, i + |b|) == Some((op, |OpText(op)|)) &&
            s[i+|b|+|OpText(op)|..] == c + (value + (d + rest))
  {
    hide Spaced, Span, ScanOp, ScanBase, OpText, Blanks, IsSpace, IsField, IsValue, IsJoin;
    SpacedParts(a, field, b, op, c, value, d, rest);
    SpacedField(a, field, b, op, c, value, d, rest);
    OpRun(Spaced(a, field, b, op, c, value, d, rest), |a| + |field|, b, op, c + (value + (d + rest)));
  }

  lemma {:induction false} SpacedValue(a: string, field: string, b: string, op: Op, c: string, value: string,
                                      d: string, rest: string)
    requires Scannable(a, field, b, c, value, d, rest)
    ensures var (s, j) := (Spaced(a, field, b, op, c, value, d, rest), |a| + |field| + |b| + |OpText(op)|);
            var k := j + |c|;
            var e := k + |value|;
            e <= |s| && Span(IsSpace, s, j) == k && Span(IsValue, s, k) == e && s[k..e] == value &&
            Span(IsSpace, s, e) == |s| - |rest|
  {
    hide Spaced, Span, ScanOp, ScanBase, OpText, Blanks, IsSpace, IsField, IsValue, IsJoin;
    SpacedParts(a, field, b, op, c, value, d, rest);
    SpacedOp(a, field, b, op, c, value, d, rest);
    ValueSpans(Spaced(a, field, b, op, c, value, d, rest), |a| + |field| + |b| + |OpText(op)|, c, value, d, rest);
  }

  ghost predicate FieldAt(s: string, a: nat, b: nat, field: string) {
    a < b <= |s| && Span(IsSpace, s, 0) == a && Span(IsField, s, a) == b && s[a..b] == field
  }

  ghost predicate OpFrom(s: string, b: nat, c: nat, op: Op, j: nat) {
    b <= c <= j <= |s| && Span(IsSpace, s, b) == c && ScanOp(s, c) == Some((op, |OpText(op)|)) && j == c + |OpText(op)|
  }

  ghost predicate ValueFrom(s: string, j: nat, d: nat, e: nat, value: string, end: nat) {
    j <= d < e <= |s| && Span(IsSpace, s, j) == d && Span(IsValue, s, d) == e && s[d..e] == value &&
    Span(IsSpace, s, e) == end
  }

  lemma {:induction false} ScanIs(s: string, a: nat, b: nat, c: nat, op: Op, j: nat, d: nat, e: nat, field: string,
                                  value: string, end: nat)
    requires FieldAt(s, a, b, field) && OpFrom(s, b, c, op, j) && ValueFrom(s, j, d, e, value, end)
    ensures ScanBase(s) == Some(Base(field, op, value, end))
  {
    hide Span, ScanOp;
  }

  /** A base expression is scanned as field, operator and value whatever the spaces, up to its end or to a joining
      character. */
  lemma {:induction false} ScanSpaced(a: string, field: string, b: string, op: Op, c: string, value: string,
                                     d: string, rest: string)
    requires Scannable(a, field, b, c, value, d, rest)
    ensures |rest| <= |Spaced(a, field, b, op, c, value, d, rest)|
    ensures ScanBase(Spaced(a, field, b, op, c, value, d, rest)) ==
            Some(Base(field, op, value, |Spaced(a, field, b, op, c, value, d, rest)| - |rest|))
  {
    hide *;
    var (s, i) := (Spaced(a, field, b, op, c, value, d, rest), |a| + |field|);
    var j := i + |b| + |OpText(op)|;
    var e := j + |c| + |value|;
    FieldOf(a, field, b, op, c, value, d, rest);
    OpOf(a, field, b, op, c, value, d, rest);
    ValueOf(a, field, b, op, c, value, d, rest);
    ScanIs(s, |a|, i, i + |b|, op, j, j + |c|, e, field, value, |s| - |rest|);
  }

  lemma {:induction false} FieldOf(a: string, field: string, b: string, op: Op, c: string, value: string,
                                  d: string, rest: string)
    requires Scannable(a, field, b, c, value, d, rest)
    ensures FieldAt(Spaced(a, field, b, op, c, value, d, rest), |a|, |a| + |field|, field)
  {
    SpacedField(a, field, b, op, c, value, d, rest);
    hide Spaced, Span, Blanks;
  }

  lemma {:induction false} OpOf(a: string, field: string, b: string, op: Op, c: string, value: string,
                               d: string, rest: string)
    requires Scannable(a, field, b, c, value, d, rest)
    ensures var i := |a| + |field|;
            OpFrom(Spaced(a, field, b, op, c, value, d, rest), i, i + |b|, op, i + |b| + |OpText(op)|)
  {
    SpacedOp(a, field, b, op, c, value, d, rest);
    hide Spaced, Span, ScanOp, OpText, Blanks;
  }

  lemma {:induction false} ValueOf(a: string, field: string, b: string, op: Op, c: string, value: string,
                                  d: string, rest: string)
    requires Scannable(a, field, b, c, value, d, rest)
    ensures var (s, j) := (Spaced(a, field, b, op, c, value, d, rest), |a| + |field| + |b| + |OpText(op)|);
            |rest| <= |s| && ValueFrom(s, j, j + |c|, j + |c| + |value|, value, |s| - |rest|)
  {
    SpacedParts(a, field, b, op, c, value, d, rest);
    SpacedValue(a, field, b, op, c, value, d, rest);
    hide Spaced, Span, OpText, Blanks;
  }

  lemma {:induction false} SpacedParts(a: string, field: string, b: string, op: Op, c: string, value: string,
                                       d: string, rest: string)
    requires Written(field, value) && Blanks(c)
    ensures var (s, tail) := (Spaced(a, field, b, op, c, value, d, rest), c + (value + (d + rest)));
            s == a + (field + (b + (OpText(op) + tail))) && tail != "" && tail[0] != '=' &&
            |s| == |a| + |field| + |b| + |OpText(op)| + |c| + |value| + |d| + |rest|
  {
    hide OpText;
    assert IsValue(value[0]);
    assert c != "" ==> IsSpace(c[0]);
  }

  /** The spaces and the field. */
  lemma {:induction false} FieldRun(s: string, a: string, field: string, rest: string)
    requires s == a + (field + rest) && Blanks(a) && field != "" && (rest != "" ==> !IsField(rest[0]))
    requires forall k :: 0 <= k < |field| ==> IsField(field[k])
    ensures var i := |a| + |field|;
            i <= |s| && Span(IsSpace, s, 0) == |a| && Span(IsField, s, |a|) == i && s[|a|..i] == field && s[i..] == rest
  {
    hide Span;
    assert s[0..] == s;
    assert IsField(field[0]) && (field + rest)[0] == field[0];
    RunAt(IsSpace, s, 0, a, field + rest);
    RunAt(IsField, s, |a|, field, rest);
  }

  /** The spaces and the operator. */
  lemma {:induction false} OpRun(s: string, i: nat, b: string, op: Op, tail: string)
    requires i <= |s| && s[i..] == b + (OpText(op) + tail) && tail != "" && tail[0] != '=' && Blanks(b)
    ensures var j := i + |b|;
            j + |OpText(op)| <= |s| && Span(IsSpace, s, i) == j && ScanOp(s, j) == Some((op, |OpText(op)|)) &&
            s[j+|OpText(op)|..] == tail
  {
    hide Span, ScanOp;
    OpStart(op, tail);
    hide OpText;
    RunAt(IsSpace, s, i, b, OpText(op) + tail);
    OpAt(s, i + |b|, op, tail);
  }

  lemma {:induction false} AfterField(b: string, op: Op, tail: string)
    requires Blanks(b)
    ensures var t := b + (OpText(op) + tail); t != "" && !IsField(t[0])
  {
    OpStart(op, tail);
    hide OpText;
    assert b != "" ==> IsSpace(b[0]);
  }

  lemma {:induction false} OpStart(op: Op, tail: string)
    ensures var t := OpText(op) + tail; t != "" && !IsSpace(t[0]) && !IsField(t[0])
  {
  }

  /** The spaces and the value after the operator. */
  lemma {:induction false} ValueSpans(s: string, j: nat, c: string, value: string, d: string, rest: string)
    requires j <= |s| && s[j..] == c + (value + (d + rest)) && (rest != "" ==> IsJoin(rest[0]))
    requires value != "" && (forall k :: 0 <= k < |value| ==> IsValue(value[k])) && Blanks(c) && Blanks(d)
    ensures var k := j + |c|;
            k + |value| <= |s| && Span(IsSpace, s, j) == k && Span(IsValue, s, k) == k + |value| &&
            s[k..k+|value|] == value && Span(IsSpace, s, k + |value|) == k + |value| + |d|
  {
    hide Span;
    assert IsValue(value[0]);
    RunAt(IsSpace, s, j, c, value + (d + rest));
    assert d != "" ==> IsSpace(d[0]);
    RunAt(IsValue, s, j + |c|, value, d + rest);
    RunAt(IsSpace, s, j + |c| + |value|, d, rest);
  }

  /** A written base expression is scanned as it was written, up to its end or to a joining character. */
  lemma {:induction false} ScanText(field: string, op: Op, value: string, rest: string)
    requires Written(field, value) && (rest != "" ==> IsJoin(rest[0]))
    ensures ScanBase(Text(field, op, value) + rest) == Some(Base(field, op, value, |Text(field, op, value)|))
  {
    hide ScanBase, OpText, Written, IsJoin;
    ScanSpaced("", field, "", op, "", value, "", rest);
    assert Spaced("", field, "", op, "", value, "", rest) == Text(field, op, value) + rest;
  }

  // ---- balanced text ----

  ghost predicate Balanced(a: string) {
    forall c: nat :: c >= 1 ==> Depth(a, c) == Some(c)
  }

  lemma {:induction false} DepthAppend(a: string, b: string, c: nat)
    ensures Depth(a + b, c) == match Depth(a, c) case None => None case Some(d) => Depth(b, d)
    decreases |a|
  {
    if a == "" {
      assert a + b == b;
    } else {
      assert (a + b)[1..] == a[1..] + b;
      DepthAppend(a[1..], b, if a[0] == '(' then c + 1 else if a[0] == ')' && c > 1 then c - 1 else c);
    }
  }

  lemma {:induction false} BalancedAppend(a: string, b: string)
    requires Balanced(a) && Balanced(b)
    ensures Balanced(a + b)
  {
    forall c: nat | c >= 1 ensures Depth(a + b, c) == Some(c) {
      DepthAppend(a, b, c);
    }
  }

  lemma {:induction false} BalancedBrackets(a: string)
    requires Balanced(a)
    ensures Balanced("(" + a + ")")
  {
    forall c: nat | c >= 1 ensures Depth("(" + a + ")", c) == Some(c) {
      DepthAppend("(" + a, ")", c);
      assert ("(" + a)[1..] == a;
      assert ")"[1..] == "";
    }
  }

  lemma {:induction false} BalancedPlain(a: string)
    requires forall k :: 0 <= k < |a| ==> a[k] != '(' && a[k] != ')'
    ensures Balanced(a)
  {
    if a != "" {
      BalancedPlain(a[1..]);
    }
  }

  // ---- what the parser makes of each shape ----

  lemma {:induction false} StripPlain(s: string)
    requires s != "" && !IsSpace(s[0]) && s[0] != '('
    ensures Strip(s) == s
  {
  }

  /** `(a)b`: the first bracket closes where it should. */
  lemma {:induction false} BracketCloses(a: string, b: string)
    requires Balanced(a) && (b != "" ==> !IsSpace(b[0]))
    ensures var s := "(" + a + ")" + b;
            Span(IsSpace, s, 0) == 0 && Close(s, 1, 1) == |a| + 1 && s[1..|a|+1] == a && s[|a|+2..] == b &&
            Span(IsSpace, s, |a| + 2) == |a| + 2
  {
    var s := "(" + a + ")" + b;
    assert s[1..1+|a|] == a;
    assert Depth(a, 1) == Some(1);
    CloseAfter(s, 1, a, 1);
    assert b != "" ==> s[|a|+2] == b[0];
  }

  lemma {:induction false} ParseBracketed(rd: Reader, short: bool, a: string)
    requires Balanced(a)
    ensures Parse(rd, short, "(" + a + ")") == Parse(rd, short, a)
  {
    hide Parse, Strip, Close, Span, Balanced, IsSpace;
    var s := "(" + a + ")";
    BracketCloses(a, "");
    assert s + "" == s;
    StripOnce(s, 0, |a| + 1);
    ParseIs(rd, short, s);
    ParseIs(rd, short, a);
  }

  lemma {:induction false} LineEnds(s: string, k: nat)
    requires k <= |s| && OneLine(s[k..])
    ensures Span(InLine, s, k) == |s| && Span(IsSpace, s, |s|) == |s| && s[k..|s|] == s[k..]
  {
    assert forall i :: k <= i < |s| ==> s[i] == s[k..][i-k];
    SpanIs(InLine, s, k, |s|);
    SpanIs(IsSpace, s, |s|, |s|);
  }

  /** The bracket branch of the parser. */
  lemma {:induction false} BracketBranch(rd: Reader, short: bool, s: string, end: nat)
    requires s != "" && ScanBase(s).None? && Span(IsSpace, s, 0) == 0 && s[0] == '(' && Close(s, 1, 1) == end
    requires 0 < end && end + 1 < |s| && Span(IsSpace, s, end + 1) == end + 1 && IsJoin(s[end+1])
    requires Span(InLine, s, end + 2) == |s| && Span(IsSpace, s, |s|) == |s|
    ensures var l := Parse(rd, short, s[1..end]);
            ParseStripped(rd, short, s) == if l.None? then None
              else Join(s[end+1], l.value, Parse(rd, short, s[end+2..|s|]))
  {
    hide Parse, Span, Close, ScanBase, OneLine, IsJoin, Join, ParseLeaf;
  }

  lemma {:induction false} ParseIs(rd: Reader, short: bool, s: string)
    ensures Parse(rd, short, s) == ParseStripped(rd, short, Strip(s))
  {
    hide ParseStripped, Strip;
  }

  /** `(a)&b` and `(a)|b`. */
  lemma {:induction false} ParseJoin(rd: Reader, short: bool, a: string, c: char, b: string)
    requires Balanced(a) && IsJoin(c) && OneLine(b)
    ensures var l := Parse(rd, short, a);
            Parse(rd, short, "(" + a + ")" + ([c] + b)) == if l.None? then None
              else Join(c, l.value, Parse(rd, short, b))
  {
    hide Parse, ParseStripped, Balanced, OneLine, Join;
    var s := "(" + a + ")" + ([c] + b);
    BracketCloses(a, [c] + b);
    assert s[|a|+2] == c && s[|a|+3..] == b;
    NoBase(s);
    hide Close, Span, ScanBase;
    assert Strip(s) == s;
    LineEnds(s, |a| + 3);
    BracketBranch(rd, short, s, |a| + 1);
    ParseIs(rd, short, s);
  }

  lemma {:induction false} NoBase(s: string)
    requires s != "" && s[0] == '('
    ensures ScanBase(s).None?
  {
  }

  /** Nothing is stripped off text that starts with a field. */
  lemma {:induction false} TextStripped(field: string, op: Op, value: string, rest: string)
    requires Written(field, value)
    ensures var s := Text(field, op, value) + rest; Strip(s) == s
  {
    TextAt(field, op, value, rest);
    hide Text, OpText, Strip, Span;
    var s := Text(field, op, value) + rest;
    assert s[0] == field[0] && IsField(s[0]);
    StripPlain(s);
  }

  lemma {:induction false} ParseText(rd: Reader, short: bool, field: string, op: Op, value: string)
    requires Written(field, value)
    ensures Parse(rd, short, Text(field, op, value)) ==
            ParseLeaf(rd, short, Base(field, op, value, |Text(field, op, value)|))
  {
    hide Close, Span, ScanBase, ParseLeaf, Strip, Text, IsSpace, IsField, IsValue, OpText, Written;
    var s := Text(field, op, value);
    ScanText(field, op, value, "");
    TextStripped(field, op, value, "");
    assert s + "" == s;
  }

  // ---- what a base expression means ----

  /** The fields of a trace record and the bits each of them takes. */
  ghost predicate StoredIn(field: string, bits: nat) {
    (bits == 8 && field in {"nodeType", "intf", "qidx", "l3Prot", "event", "ecn", "ack.flags"}) ||
    (bits == 16 && field in {"node", "size", "data.sport", "data.dport", "ack.sport", "ack.dport", "qp.sport",
                             "qp.dport"}) ||
    (bits == 32 && field in {"qlen", "sip", "dip", "data.seq"}) || (bits == 64 && field == "time")
  }

  lemma {:induction false} Widths()
    ensures Pow2(8) == 0x100 && Pow2(16) == 0x1_0000 && Pow2(32) == 0x1_0000_0000
    ensures Pow2(64) == 0x1_0000_0000_0000_0000
  {
    assert Pow2(4) == 16;
    Pow2Sum(4, 4);
    Pow2Sum(8, 8);
    Pow2Sum(16, 16);
    Pow2Sum(32, 32);
  }

  lemma {:induction false} RangeOfBytes(field: string)
    ensures StoredIn(field, 8) <==> Range(field) == Some(0x100)
  {
  }

  lemma {:induction false} RangeOfWords(field: string)
    ensures StoredIn(field, 16) <==> Range(field) == Some(0x1_0000)
  {
  }

  lemma {:induction false} RangeOfDwords(field: string)
    ensures StoredIn(field, 32) <==> Range(field) == Some(0x1_0000_0000)
  {
  }

  lemma {:induction false} RangeOfQwords(field: string)
    ensures StoredIn(field, 64) <==> Range(field) == Some(0x1_0000_0000_0000_0000)
  {
  }

  lemma {:induction false} RangeAmong(field: string)
    ensures Range(field) in {None, Some(0x100), Some(0x1_0000), Some(0x1_0000_0000), Some(0x1_0000_0000_0000_0000)}
  {
  }

  lemma {:induction false} BitsAmong(field: string, bits: nat)
    requires StoredIn(field, bits)
    ensures bits in {8, 16, 32, 64}
  {
  }

  lemma {:induction false} RangeIs(field: string, bits: nat)
    ensures StoredIn(field, bits) ==> Range(field) == Some(Pow2(bits))
    ensures Range(field).Some? ==> exists b: nat :: StoredIn(field, b)
  {
    hide Pow2, StoredIn, Range;
    Widths();
    RangeOfBytes(field);
    RangeOfWords(field);
    RangeOfDwords(field);
    RangeOfQwords(field);
    RangeAmong(field);
    if StoredIn(field, bits) {
      BitsAmong(field, bits);
    }
  }

  /** A base expression, whatever its spaces, is parsed by its parts. */
  lemma {:induction false} ParseSpaced(rd: Reader, short: bool, a: string, field: string, b: string, op: Op, c: string,
                                       value: string, d: string)
    requires Scannable(a, field, b, c, value, d, "")
    ensures Parse(rd, short, Spaced(a, field, b, op, c, value, d, "")) ==
            ParseLeaf(rd, short, Base(field, op, value, |Spaced(a, field, b, op, c, value, d, "")|))
  {
    hide Spaced, Close, Span, ScanBase, ParseLeaf, Strip, OpText, Blanks, IsSpace, IsField, IsValue;
    var s := Spaced(a, field, b, op, c, value, d, "");
    ScanSpaced(a, field, b, op, c, value, d, "");
    SpacedField(a, field, b, op, c, value, d, "");
    assert s[|a|] == s[|a|..|a|+|field|][0];
    FieldStart(field, value);
    StripAfterSpace(s);
  }

  lemma {:induction false} FieldStart(field: string, value: string)
    requires Written(field, value)
    ensures field != "" && field[0] != '('
  {
    assert IsField(field[0]);
  }

  lemma {:induction false} StripAfterSpace(s: string)
    requires var i := Span(IsSpace, s, 0); i < |s| && s[i] != '('
    ensures Strip(s) == s
  {
    hide Span, Close;
  }

  /** A base expression accepts exactly the traces whose field compares so with the value, cut to the bits of the field:
      every operator has its own meaning. */
  lemma {:induction false} LeafMeans(rd: Reader, short: bool, a: string, field: string, b: string, op: Op, c: string,
                                     value: string, d: string, bits: nat, tr: Trace)
    requires Scannable(a, field, b, c, value, d, "") && StoredIn(field, bits)
    ensures var n := Parse(rd, short, Spaced(a, field, b, op, c, value, d, ""));
            var v := rd.num(value) % Pow2(bits);
            n.Some? &&
            (OpText(op) == "=" ==> (Test(n.value, tr) <==> tr(field) == v)) &&
            (OpText(op) == ">" ==> (Test(n.value, tr) <==> tr(field) > v)) &&
            (OpText(op) == ">=" ==> (Test(n.value, tr) <==> tr(field) >= v)) &&
            (OpText(op) == "<" ==> (Test(n.value, tr) <==> tr(field) < v)) &&
            (OpText(op) == "<=" ==> (Test(n.value, tr) <==> tr(field) <= v)) &&
            (OpText(op) == "!=" ==> (Test(n.value, tr) <==> tr(field) != v))
  {
    hide Spaced, Parse, Blanks, StoredIn, Pow2, Range;
    ParseSpaced(rd, short, a, field, b, op, c, value, d);
    RangeIs(field, bits);
  }

  /** Any other field is refused unless it is the name of a shorthand. */
  lemma {:induction false} UnknownField(rd: Reader, short: bool, a: string, field: string, b: string, op: Op, c: string,
                                        value: string, d: string)
    requires Scannable(a, field, b, c, value, d, "")
    requires forall bits: nat :: !StoredIn(field, bits)
    requires field !in {"flow", "rflow", "biflow", "queue"}
    ensures Parse(rd, short, Spaced(a, field, b, op, c, value, d, "")) == None
  {
    hide Spaced, Parse, Blanks, StoredIn, Pow2, Range;
    ParseSpaced(rd, short, a, field, b, op, c, value, d);
    RangeIs(field, 0);
  }

  /** The branch of the parser for a base expression and more. */
  lemma {:induction false} BaseBranch(rd: Reader, short: bool, s: string, base: Base)
    requires Strip(s) == s && ScanBase(s) == Some(base) && base.end < |s| && IsJoin(s[base.end]) &&
             OneLine(s[base.end+1..])
    ensures var l := ParseLeaf(rd, short, base);
            Parse(rd, short, s) == if l.None? then None
              else Join(s[base.end], l.value, Parse(rd, short, s[base.end+1..]))
  {
    hide Strip, Span, Close, ScanBase, OneLine, IsJoin, Join, ParseLeaf;
  }

  /** `leaf&b` and `leaf|b`. */
  lemma {:induction false} ParseTextJoin(rd: Reader, short: bool, field: string, op: Op, value: string, c: char,
                                         b: string)
    requires Written(field, value) && IsJoin(c) && OneLine(b)
    ensures var l := ParseLeaf(rd, short, Base(field, op, value, |Text(field, op, value)|));
            Parse(rd, short, Text(field, op, value) + ([c] + b)) == if l.None? then None
              else Join(c, l.value, Parse(rd, short, b))
  {
    hide *;
    var (text, s) := (Text(field, op, value), Text(field, op, value) + ([c] + b));
    ScanText(field, op, value, [c] + b);
    JoinAt(text, c, b);
    TextStripped(field, op, value, [c] + b);
    BaseBranch(rd, short, s, Base(field, op, value, |text|));
  }

  lemma {:induction false} JoinAt(text: string, c: char, b: string)
    ensures var s := text + ([c] + b); |text| < |s| && s[|text|] == c && s[|text|+1..] == b
  {
  }

  // ---- printing and parsing back ----

  /** An expression tree as a user writes it, every leaf a base expression. */
  datatype Expr = Term(field: string, op: Op, value: string) | Both(l: Expr, r: Expr) | Either(l: Expr, r: Expr)

  predicate Proper(e: Expr) {
    match e
    case Term(field, _, value) => Written(field, value) && Range(field).Some?
    case Both(l, r) => Proper(l) && Proper(r)
    case Either(l, r) => Proper(l) && Proper(r)
  }

  /** Both operands in brackets, as `str` prints a node, and the leaves as they can be read. */
  function Str(e: Expr): string {
    match e
    case Term(field, op, value) => Text(field, op, value)
    case Both(l, r) => "(" + Str(l) + ")" + (['&'] + ("(" + Str(r) + ")"))
    case Either(l, r) => "(" + Str(l) + ")" + (['|'] + ("(" + Str(r) + ")"))
  }

  /** What the expression says of a trace. */
  predicate Holds(rd: Reader, e: Expr, tr: Trace)
    requires Proper(e)
  {
    match e
    case Term(field, op, value) => Compare(op, tr(field), rd.num(value) % Range(field).value)
    case Both(l, r) => Holds(rd, l, tr) && Holds(rd, r, tr)
    case Either(l, r) => Holds(rd, l, tr) || Holds(rd, r, tr)
  }

  /** One line of balanced text. */
  ghost predicate Good(s: string) {
    Balanced(s) && OneLine(s)
  }

  lemma {:induction false} GoodText(field: string, op: Op, value: string)
    requires Written(field, value)
    ensures Good(Text(field, op, value))
  {
    var s := Text(field, op, value);
    forall k | 0 <= k < |s| ensures s[k] != '(' && s[k] != ')' && s[k] != '\n' && s[k] != '\r' {
      assert k < |field| ==> s[k] == field[k];
      assert k >= |field| + |OpText(op)| ==> s[k] == value[k-|field|-|OpText(op)|];
    }
    BalancedPlain(s);
  }

  lemma {:induction false} GoodBrackets(a: string)
    requires Good(a)
    ensures Good("(" + a + ")")
  {
    BalancedBrackets(a);
  }

  lemma {:induction false} GoodJoin(a: string, c: char, b: string)
    requires Good(a) && Good(b) && IsJoin(c)
    ensures Good([c] + b) && Good(a + ([c] + b))
  {
    BalancedPlain([c]);
    BalancedAppend([c], b);
    BalancedAppend(a, [c] + b);
  }

  lemma {:induction false} GoodStr(e: Expr)
    requires Proper(e)
    ensures Good(Str(e))
  {
    match e
    case Term(field, op, value) => GoodText(field, op, value);
    case Both(l, r) =>
      GoodStr(l);
      GoodStr(r);
      GoodBrackets(Str(l));
      GoodBrackets(Str(r));
      GoodJoin("(" + Str(l) + ")", '&', "(" + Str(r) + ")");
    case Either(l, r) =>
      GoodStr(l);
      GoodStr(r);
      GoodBrackets(Str(l));
      GoodBrackets(Str(r));
      GoodJoin("(" + Str(l) + ")", '|', "(" + Str(r) + ")");
  }

  /** Parsing bracketed text gives a tree that accepts the same traces, for every expression and every trace. */
  lemma {:induction false} StrParses(rd: Reader, short: bool, e: Expr)
    requires Proper(e)
    ensures var n := Parse(rd, short, Str(e)); n.Some? && forall tr: Trace :: Test(n.value, tr) <==> Holds(rd, e, tr)
  {
    hide Parse, ParseStripped, Balanced, OneLine;
    match e
    case Term(field, op, value) => ParseText(rd, short, field, op, value);
    case Both(l, r) =>
      GoodStr(l);
      GoodStr(r);
      GoodBrackets(Str(r));
      StrParses(rd, short, l);
      StrParses(rd, short, r);
      ParseBracketed(rd, short, Str(r));
      ParseJoin(rd, short, Str(l), '&', "(" + Str(r) + ")");
    case Either(l, r) =>
      GoodStr(l);
      GoodStr(r);
      GoodBrackets(Str(r));
      StrParses(rd, short, l);
      StrParses(rd, short, r);
      ParseBracketed(rd, short, Str(r));
      ParseJoin(rd, short, Str(l), '|', "(" + Str(r) + ")");
  }

  // ---- what `str` really prints ----

  /** `str`: a leaf is printed with the offset of its field in a trace, not with the name. */
  function Printed(offset: string -> nat, n: Node): string {
    match n
    case Leaf(field, op, v) => "[" + Dec(offset(field)) + "]" + OpText(op) + Dec(v)
    case And(l, r) => "(" + Printed(offset, l) + ")" + (['&'] + ("(" + Printed(offset, r) + ")"))
    case Or(l, r) => "(" + Printed(offset, l) + ")" + (['|'] + ("(" + Printed(offset, r) + ")"))
  }

  /** The whole filter: without a root nothing is printed, and every trace is accepted. */
  function PrintedFilter(offset: string -> nat, root: Option<Node>): string {
    if root.None? then "" else Printed(offset, root.value)
  }

  predicate Accepts(root: Option<Node>, tr: Trace) {
    root.Some? ==> Test(root.value, tr)
  }

  lemma {:induction false} GoodLeaf(offset: string -> nat, field: string, op: Op, v: nat)
    ensures var s := Printed(offset, Leaf(field, op, v)); Good(s) && s != "" && s[0] == '['
  {
    hide Dec;
    var s := Printed(offset, Leaf(field, op, v));
    assert Plain(Dec(offset(field))) && Plain(Dec(v)) && Plain(OpText(op));
    assert s == ("[" + Dec(offset(field))) + ("]" + OpText(op) + Dec(v));
    assert Plain(s);
    BalancedPlain(s);
  }

  /** Neither brackets nor ends of lines. */
  ghost predicate Plain(s: string) {
    forall k :: 0 <= k < |s| ==> s[k] != '(' && s[k] != ')' && InLine(s[k])
  }

  lemma {:induction false} GoodPrinted(offset: string -> nat, n: Node)
    ensures Good(Printed(offset, n))
  {
    hide Good;
    match n
    case Leaf(field, op, v) => GoodLeaf(offset, field, op, v);
    case And(l, r) =>
      GoodPrinted(offset, l);
      GoodPrinted(offset, r);
      GoodBrackets(Printed(offset, l));
      GoodBrackets(Printed(offset, r));
      GoodJoin("(" + Printed(offset, l) + ")", '&', "(" + Printed(offset, r) + ")");
    case Or(l, r) =>
      GoodPrinted(offset, l);
      GoodPrinted(offset, r);
      GoodBrackets(Printed(offset, l));
      GoodBrackets(Printed(offset, r));
      GoodJoin("(" + Printed(offset, l) + ")", '|', "(" + Printed(offset, r) + ")");
  }

  /** Text that starts with neither a space, a bracket nor a character of a field is no expression. */
  lemma {:induction false} ParseNothing(rd: Reader, short: bool, s: string)
    requires s != "" ==> !IsSpace(s[0]) && s[0] != '(' && !IsField(s[0])
    ensures Parse(rd, short, s) == None
  {
    assert Strip(s) == s;
    assert ParseBracket(rd, short, s) == None;
    assert ParseStripped(rd, short, s) == None;
  }

  /** What is printed of a tree never parses. */
  lemma {:induction false} PrintedFails(rd: Reader, short: bool, offset: string -> nat, n: Node)
    ensures Parse(rd, short, Printed(offset, n)) == None
  {
    hide Parse, ParseStripped, Balanced, OneLine;
    match n
    case Leaf(field, op, v) =>
      GoodLeaf(offset, field, op, v);
      ParseNothing(rd, short, Printed(offset, n));
    case And(l, r) =>
      GoodPrinted(offset, l);
      GoodPrinted(offset, r);
      GoodBrackets(Printed(offset, r));
      PrintedFails(rd, short, offset, l);
      ParseJoin(rd, short, Printed(offset, l), '&', "(" + Printed(offset, r) + ")");
    case Or(l, r) =>
      GoodPrinted(offset, l);
      GoodPrinted(offset, r);
      GoodBrackets(Printed(offset, r));
      PrintedFails(rd, short, offset, l);
      ParseJoin(rd, short, Printed(offset, l), '|', "(" + Printed(offset, r) + ")");
  }

  /** So a filter and the one that is parsed from its print accept the same traces exactly when it accepts every
      trace. */
  lemma {:induction false} PrintedRoundTrip(rd: Reader, short: bool, offset: string -> nat, root: Option<Node>)
    ensures (forall tr: Trace :: Accepts(Parse(rd, short, PrintedFilter(offset, root)), tr) == Accepts(root, tr)) <==>
            forall tr: Trace :: Accepts(root, tr)
  {
    hide Parse, Printed, Test;
    if root.None? {
      ParseNothing(rd, short, "");
    } else {
      PrintedFails(rd, short, offset, root.value);
    }
  }
}
