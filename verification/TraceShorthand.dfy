/** The flow and queue shorthands of filter expressions: what their expansions accept. */
module TraceShorthand {
  import opened Lists
  import opened TraceFilter

  /** `sscanf` reads back what `sprintf` wrote, and the values it reads fit their types. */
  ghost predicate ReadsBack(rd: Reader) {
    (forall n: nat :: n < 0x1_0000_0000 ==> rd.num(Dec(n)) == n) &&
    rd.num("17") == 17 && rd.num("0xFC") == 0xFC && rd.num("0xFD") == 0xFD && rd.num("0x0") == 0 &&
    (forall v :: rd.flow(v).Some? ==>
      rd.flow(v).value.0 < 0x1_0000_0000 && rd.flow(v).value.1 < 0x1_0000_0000 && rd.flow(v).value.2 < 0x1_0000 &&
      rd.flow(v).value.3 < 0x1_0000) &&
    forall v :: rd.queue(v).Some? ==>
      rd.queue(v).value.0 < 0x1_0000 && rd.queue(v).value.1 < 0x100 && rd.queue(v).value.2 < 0x100
  }

  /** `s` is parsed, as one line of balanced text, to a tree that accepts the same traces as `e`. */
  ghost predicate Means(rd: Reader, s: string, e: Expr) {
    Good(s) && Proper(e) && Same(rd, Parse(rd, false, s), e)
  }

  ghost predicate Same(rd: Reader, n: Option<Node>, e: Expr)
    requires Proper(e)
  {
    n.Some? && forall tr: Trace :: Test(n.value, tr) <==> Holds(rd, e, tr)
  }

  // ---- meaning of the pieces ----

  lemma {:induction false} LeafSame(rd: Reader, field: string, value: string, end: nat)
    requires Proper(Term(field, Eq, value))
    ensures Same(rd, ParseLeaf(rd, false, Base(field, Eq, value, end)), Term(field, Eq, value))
  {
    hide Range;
  }

  lemma {:induction false} JoinSame(rd: Reader, l: Node, d: Expr, r: Option<Node>, e: Expr)
    requires Proper(d) && Proper(e) && Same(rd, Some(l), d) && Same(rd, r, e)
    ensures Same(rd, Join('&', l, r), Both(d, e)) && Same(rd, Join('|', l, r), Either(d, e))
  {
  }

  lemma {:induction false} TermMeans(rd: Reader, field: string, value: string)
    requires Proper(Term(field, Eq, value))
    ensures Means(rd, Text(field, Eq, value), Term(field, Eq, value))
  {
    hide Parse, ParseLeaf, Range, Written, Same;
    GoodText(field, Eq, value);
    ParseText(rd, false, field, Eq, value);
    LeafSame(rd, field, value, |Text(field, Eq, value)|);
  }

  lemma {:induction false} TermJoinMeans(rd: Reader, field: string, value: string, s: string, e: Expr)
    requires Proper(Term(field, Eq, value)) && Means(rd, s, e)
    ensures Means(rd, Text(field, Eq, value) + ("&" + s), Both(Term(field, Eq, value), e))
    ensures Means(rd, Text(field, Eq, value) + ("|" + s), Either(Term(field, Eq, value), e))
  {
    var leaf := ParseLeaf(rd, false, Base(field, Eq, value, |Text(field, Eq, value)|));
    LeafSame(rd, field, value, |Text(field, Eq, value)|);
    SameSome(rd, leaf, Term(field, Eq, value));
    JoinSame(rd, leaf.value, Term(field, Eq, value), Parse(rd, false, s), e);
    hide Parse, ParseLeaf, Range, Written, Balanced, OneLine, Same, Join, Text;
    GoodText(field, Eq, value);
    GoodLine(s);
    GoodJoin(Text(field, Eq, value), '&', s);
    GoodJoin(Text(field, Eq, value), '|', s);
    ParseTextJoin(rd, false, field, Eq, value, '&', s);
    ParseTextJoin(rd, false, field, Eq, value, '|', s);
    assert "&" == ['&'] && "|" == ['|'];
  }

  lemma {:induction false} SameSome(rd: Reader, n: Option<Node>, e: Expr)
    requires Proper(e) && Same(rd, n, e)
    ensures n.Some?
  {
  }

  lemma {:induction false} HoldsJoin(rd: Reader, l: Expr, r: Expr)
    requires Proper(l) && Proper(r)
    ensures Proper(Both(l, r)) && Proper(Either(l, r))
    ensures forall tr: Trace :: Holds(rd, Both(l, r), tr) <==> Holds(rd, l, tr) && Holds(rd, r, tr)
    ensures forall tr: Trace :: Holds(rd, Either(l, r), tr) <==> Holds(rd, l, tr) || Holds(rd, r, tr)
  {
  }

  lemma {:induction false} HoldsTerm(rd: Reader, field: string, value: string)
    requires Proper(Term(field, Eq, value))
    ensures Range(field).value > 0
    ensures forall tr: Trace :: Holds(rd, Term(field, Eq, value), tr) <==>
            tr(field) == rd.num(value) % Range(field).value
  {
  }

  lemma {:induction false} GoodLine(s: string)
    requires Good(s)
    ensures Balanced(s) && OneLine(s)
  {
  }

  lemma {:induction false} BracketMeans(rd: Reader, s: string, e: Expr)
    requires Means(rd, s, e)
    ensures Means(rd, "(" + s + ")", e)
  {
    hide Parse, Balanced, OneLine;
    GoodLine(s);
    GoodBrackets(s);
    ParseBracketed(rd, false, s);
  }

  lemma {:induction false} BracketJoinMeans(rd: Reader, s: string, d: Expr, t: string, e: Expr)
    requires Means(rd, s, d) && Means(rd, t, e)
    ensures Means(rd, "(" + s + ")" + ("&" + t), Both(d, e))
    ensures Means(rd, "(" + s + ")" + ("|" + t), Either(d, e))
  {
    SameSome(rd, Parse(rd, false, s), d);
    JoinSame(rd, Parse(rd, false, s).value, d, Parse(rd, false, t), e);
    hide Parse, Balanced, OneLine, Same, Join;
    GoodLine(s);
    GoodLine(t);
    GoodBrackets(s);
    GoodJoin("(" + s + ")", '&', t);
    GoodJoin("(" + s + ")", '|', t);
    ParseJoin(rd, false, s, '&', t);
    ParseJoin(rd, false, s, '|', t);
    assert "&" == ['&'] && "|" == ['|'];
  }

  // ---- flows ----

  /** The ports `f` and `g` of a trace. */
  predicate PortsOf(tr: Trace, f: string, a: nat, g: string, b: nat) {
    tr(f) == a && tr(g) == b
  }

  /** The trace belongs to the flow: addresses, and the ports of its kind of packet. */
  predicate FlowOf(tr: Trace, sip: nat, dip: nat, sport: nat, dport: nat) {
    tr("sip") == sip && tr("dip") == dip &&
    ((tr("l3Prot") == 17 && PortsOf(tr, "data.sport", sport, "data.dport", dport)) ||
     ((tr("l3Prot") == 0xFC || tr("l3Prot") == 0xFD) && PortsOf(tr, "ack.sport", sport, "ack.dport", dport)) ||
     (tr("l3Prot") == 0 && PortsOf(tr, "qp.sport", sport, "qp.dport", dport)))
  }

  function EqualExpr(field: string, n: nat): Expr {
    Term(field, Eq, Dec(n))
  }

  /** A field name, and a number it can hold. */
  ghost predicate Holding(field: string, n: nat) {
    field != "" && (forall k :: 0 <= k < |field| ==> IsField(field[k])) && Range(field).Some? &&
    n < Range(field).value <= 0x1_0000_0000
  }

  lemma {:induction false} EqualMeans(rd: Reader, field: string, n: nat)
    requires ReadsBack(rd) && Holding(field, n)
    ensures Proper(EqualExpr(field, n)) && forall tr: Trace :: Holds(rd, EqualExpr(field, n), tr) <==> tr(field) == n
  {
    HoldsTerm(rd, field, Dec(n));
  }

  function PortsExpr(f: string, a: nat, g: string, b: nat): Expr {
    Both(EqualExpr(f, a), EqualExpr(g, b))
  }

  lemma {:induction false} PortsMean(rd: Reader, f: string, a: nat, g: string, b: nat)
    requires ReadsBack(rd) && Holding(f, a) && Holding(g, b)
    ensures Means(rd, Equal(f, a) + ("&" + Equal(g, b)), PortsExpr(f, a, g, b))
    ensures forall tr: Trace :: Holds(rd, PortsExpr(f, a, g, b), tr) <==> PortsOf(tr, f, a, g, b)
  {
    hide Means, Holding, ReadsBack, Proper, Holds;
    EqualMeans(rd, f, a);
    EqualMeans(rd, g, b);
    TermMeans(rd, g, Dec(b));
    TermJoinMeans(rd, f, Dec(a), Equal(g, b), EqualExpr(g, b));
    HoldsJoin(rd, EqualExpr(f, a), EqualExpr(g, b));
  }

  function ProtExpr(v: string): Expr {
    Term("l3Prot", Eq, v)
  }

  /** The numbers of protocols are read as they are written. */
  lemma {:induction false} ProtMeans(rd: Reader, v: string, n: nat)
    requires ReadsBack(rd) && (v, n) in [("17", 17), ("0xFC", 0xFC), ("0xFD", 0xFD), ("0x0", 0)]
    ensures Proper(ProtExpr(v)) && forall tr: Trace :: Holds(rd, ProtExpr(v), tr) <==> tr("l3Prot") == n
  {
    HoldsTerm(rd, "l3Prot", v);
  }

  lemma {:induction false} FieldsHold(a: nat)
    ensures a < 0x1_0000 ==> Holding("data.sport", a) && Holding("data.dport", a) && Holding("node", a)
    ensures a < 0x1_0000 ==> Holding("ack.sport", a) && Holding("ack.dport", a)
    ensures a < 0x1_0000 ==> Holding("qp.sport", a) && Holding("qp.dport", a)
  {
    if a < 0x1_0000 {
      DataFields(a);
      AckFields(a);
      QpFields(a);
    }
    hide Holding;
  }

  lemma {:induction false} DataFields(a: nat)
    requires a < 0x1_0000
    ensures Holding("data.sport", a) && Holding("data.dport", a)
  {
  }

  lemma {:induction false} AckFields(a: nat)
    requires a < 0x1_0000
    ensures Holding("ack.sport", a) && Holding("ack.dport", a)
  {
  }

  lemma {:induction false} QpFields(a: nat)
    requires a < 0x1_0000
    ensures Holding("qp.sport", a) && Holding("qp.dport", a) && Holding("node", a)
  {
  }

  lemma {:induction false} AddressesHold(a: nat)
    ensures a < 0x1_0000_0000 ==> Holding("sip", a) && Holding("dip", a)
    ensures a < 0x100 ==> Holding("intf", a) && Holding("qidx", a)
  {
  }

  function DataExpr(sport: nat, dport: nat): Expr {
    Both(ProtExpr("17"), PortsExpr("data.sport", sport, "data.dport", dport))
  }

  function AckExpr(sport: nat, dport: nat): Expr {
    Both(Either(ProtExpr("0xFC"), ProtExpr("0xFD")), PortsExpr("ack.sport", sport, "ack.dport", dport))
  }

  function QpExpr(sport: nat, dport: nat): Expr {
    Both(ProtExpr("0x0"), PortsExpr("qp.sport", sport, "qp.dport", dport))
  }

  lemma {:induction false} DataMeans(rd: Reader, sport: nat, dport: nat)
    requires ReadsBack(rd) && sport < 0x1_0000 && dport < 0x1_0000
    ensures Means(rd, DataText(sport, dport), DataExpr(sport, dport))
    ensures forall tr: Trace :: Holds(rd, DataExpr(sport, dport), tr) <==>
            tr("l3Prot") == 17 && PortsOf(tr, "data.sport", sport, "data.dport", dport)
  {
    hide Holding, PortsOf, PortsExpr, ProtExpr, Means, Holds, Proper, Equal;
    FieldsHold(sport);
    FieldsHold(dport);
    PortsMean(rd, "data.sport", sport, "data.dport", dport);
    ProtMeans(rd, "17", 17);
    ProtJoinMeans(rd, "17", Equal("data.sport", sport) + ("&" + Equal("data.dport", dport)),
                  PortsExpr("data.sport", sport, "data.dport", dport));
  }

  lemma {:induction false} QpMeans(rd: Reader, sport: nat, dport: nat)
    requires ReadsBack(rd) && sport < 0x1_0000 && dport < 0x1_0000
    ensures Means(rd, QpText(sport, dport), QpExpr(sport, dport))
    ensures forall tr: Trace :: Holds(rd, QpExpr(sport, dport), tr) <==>
            tr("l3Prot") == 0 && PortsOf(tr, "qp.sport", sport, "qp.dport", dport)
  {
    hide Holding, PortsOf, PortsExpr, ProtExpr, Means, Holds, Proper, Equal;
    FieldsHold(sport);
    FieldsHold(dport);
    PortsMean(rd, "qp.sport", sport, "qp.dport", dport);
    ProtMeans(rd, "0x0", 0);
    ProtJoinMeans(rd, "0x0", Equal("qp.sport", sport) + ("&" + Equal("qp.dport", dport)),
                  PortsExpr("qp.sport", sport, "qp.dport", dport));
  }

  /** `l3Prot=v&...`. */
  lemma {:induction false} ProtJoinMeans(rd: Reader, v: string, s: string, e: Expr)
    requires Proper(ProtExpr(v)) && Means(rd, s, e)
    ensures Means(rd, Text("l3Prot", Eq, v) + ("&" + s), Both(ProtExpr(v), e))
    ensures Proper(e) && Proper(Both(ProtExpr(v), e))
    ensures forall tr: Trace :: Holds(rd, Both(ProtExpr(v), e), tr) <==> Holds(rd, ProtExpr(v), tr) && Holds(rd, e, tr)
  {
    TermJoinMeans(rd, "l3Prot", v, s, e);
    HoldsJoin(rd, ProtExpr(v), e);
  }

  lemma {:induction false} AckMeans(rd: Reader, sport: nat, dport: nat)
    requires ReadsBack(rd) && sport < 0x1_0000 && dport < 0x1_0000
    ensures Means(rd, AckText(sport, dport), AckExpr(sport, dport))
    ensures forall tr: Trace :: Holds(rd, AckExpr(sport, dport), tr) <==>
              (tr("l3Prot") == 0xFC || tr("l3Prot") == 0xFD) && PortsOf(tr, "ack.sport", sport, "ack.dport", dport)
  {
    hide Holding, PortsOf, PortsExpr, Holds, Equal, Means, Proper, Text;
    FieldsHold(sport);
    FieldsHold(dport);
    PortsMean(rd, "ack.sport", sport, "ack.dport", dport);
    ProtMeans(rd, "0xFC", 0xFC);
    ProtMeans(rd, "0xFD", 0xFD);
    TermMeans(rd, "l3Prot", "0xFD");
    TermJoinMeans(rd, "l3Prot", "0xFC", Text("l3Prot", Eq, "0xFD"), ProtExpr("0xFD"));
    var (prots, ports) := (Either(ProtExpr("0xFC"), ProtExpr("0xFD")),
                           PortsExpr("ack.sport", sport, "ack.dport", dport));
    BracketJoinMeans(rd, Text("l3Prot", Eq, "0xFC") + ("|" + Text("l3Prot", Eq, "0xFD")), prots,
                     Equal("ack.sport", sport) + ("&" + Equal("ack.dport", dport)), ports);
    HoldsJoin(rd, ProtExpr("0xFC"), ProtExpr("0xFD"));
    MeansProper(rd, Equal("ack.sport", sport) + ("&" + Equal("ack.dport", dport)), ports);
    HoldsJoin(rd, prots, ports);
  }

  lemma {:induction false} MeansProper(rd: Reader, s: string, e: Expr)
    requires Means(rd, s, e)
    ensures Proper(e)
  {
  }

  function KindExpr(sport: nat, dport: nat): Expr {
    Either(DataExpr(sport, dport), Either(AckExpr(sport, dport), QpExpr(sport, dport)))
  }

  function FlowExpr(sip: nat, dip: nat, sport: nat, dport: nat): Expr {
    Both(EqualExpr("sip", sip), Both(EqualExpr("dip", dip), KindExpr(sport, dport)))
  }

  lemma {:induction false} KindMeans(rd: Reader, sport: nat, dport: nat)
    requires ReadsBack(rd) && sport < 0x1_0000 && dport < 0x1_0000
    ensures Means(rd, PortsText(sport, dport), KindExpr(sport, dport)) && Proper(KindExpr(sport, dport))
    ensures forall tr: Trace :: Holds(rd, KindExpr(sport, dport), tr) <==>
              (tr("l3Prot") == 17 && PortsOf(tr, "data.sport", sport, "data.dport", dport)) ||
              ((tr("l3Prot") == 0xFC || tr("l3Prot") == 0xFD) && PortsOf(tr, "ack.sport", sport, "ack.dport", dport)) ||
              (tr("l3Prot") == 0 && PortsOf(tr, "qp.sport", sport, "qp.dport", dport))
  {
    hide PortsOf, Holds, Means, Proper, DataText, AckText, QpText, DataExpr, AckExpr, QpExpr, ReadsBack;
    DataMeans(rd, sport, dport);
    AckMeans(rd, sport, dport);
    QpMeans(rd, sport, dport);
    var (data, ack, qp) := (DataExpr(sport, dport), AckExpr(sport, dport), QpExpr(sport, dport));
    BracketMeans(rd, QpText(sport, dport), qp);
    BracketJoinMeans(rd, AckText(sport, dport), ack, "(" + QpText(sport, dport) + ")", qp);
    var rest := "(" + AckText(sport, dport) + ")" + ("|" + ("(" + QpText(sport, dport) + ")"));
    BracketJoinMeans(rd, DataText(sport, dport), data, rest, Either(ack, qp));
    MeansProper(rd, DataText(sport, dport), data);
    MeansProper(rd, AckText(sport, dport), ack);
    MeansProper(rd, QpText(sport, dport), qp);
    HoldsJoin(rd, ack, qp);
    HoldsJoin(rd, data, Either(ack, qp));
  }

  /** The expansion of a flow accepts exactly the traces of the flow. */
  lemma {:induction false} FlowMeans(rd: Reader, sip: nat, dip: nat, sport: nat, dport: nat)
    requires ReadsBack(rd) && sip < 0x1_0000_0000 && dip < 0x1_0000_0000 && sport < 0x1_0000 && dport < 0x1_0000
    ensures Means(rd, FlowText(sip, dip, sport, dport), FlowExpr(sip, dip, sport, dport)) &&
            Proper(FlowExpr(sip, dip, sport, dport))
    ensures forall tr: Trace :: Holds(rd, FlowExpr(sip, dip, sport, dport), tr) <==> FlowOf(tr, sip, dip, sport, dport)
  {
    hide PortsOf, Holds, Means, Proper, PortsText, KindExpr, ReadsBack, Holding, Text;
    KindMeans(rd, sport, dport);
    BracketMeans(rd, PortsText(sport, dport), KindExpr(sport, dport));
    AddressesHold(sip);
    AddressesHold(dip);
    EqualMeans(rd, "sip", sip);
    EqualMeans(rd, "dip", dip);
    var kind := "(" + PortsText(sport, dport) + ")";
    TermJoinMeans(rd, "dip", Dec(dip), kind, KindExpr(sport, dport));
    HoldsJoin(rd, EqualExpr("dip", dip), KindExpr(sport, dport));
    var rest := Both(EqualExpr("dip", dip), KindExpr(sport, dport));
    TermJoinMeans(rd, "sip", Dec(sip), Equal("dip", dip) + ("&" + kind), rest);
    HoldsJoin(rd, EqualExpr("sip", sip), rest);
  }

  // ---- shorthands ----

  /** The filter `name` `op` `value`. */
  function Filter(rd: Reader, name: string, op: Op, value: string): Option<Node> {
    Parse(rd, true, Text(name, op, value))
  }

  predicate IsFlow(name: string) {
    name == "flow" || name == "biflow" || name == "rflow"
  }

  lemma {:induction false} FilterIs(rd: Reader, name: string, op: Op, value: string)
    requires (IsFlow(name) || name == "queue") && Written("flow", value)
    ensures Filter(rd, name, op, value) == ParseShorthand(rd, name, op, value)
  {
    NoField(name);
    ParseText(rd, true, name, op, value);
    hide Parse, ParseShorthand, Range, Text;
  }

  lemma {:induction false} NoField(name: string)
    requires IsFlow(name) || name == "queue"
    ensures Range(name).None? && forall value :: Written("flow", value) ==> Written(name, value)
  {
  }

  /** The traces that a node accepts; none when nothing was parsed. */
  predicate Accepts(n: Option<Node>, tr: Trace) {
    n.Some? && Test(n.value, tr)
  }

  /** The flow shorthands work with `=` and four numbers only. */
  lemma {:induction false} FlowShorthandsParse(rd: Reader, name: string, op: Op, value: string)
    requires ReadsBack(rd) && Written("flow", value) && IsFlow(name)
    ensures Filter(rd, name, op, value).Some? <==> op == Eq && rd.flow(value).Some?
  {
    hide Filter, Parse, FlowText, FlowOf, Written, ParseShorthand;
    if op != Eq {
      OnlyEqual(rd, name, op, value);
    } else {
      Expansions(rd, value);
      if rd.flow(value).Some? {
        var (sip, dip, sport, dport) := rd.flow(value).value;
        FlowsParse(rd, sip, dip, sport, dport);
      }
    }
  }

  lemma {:induction false} OnlyEqual(rd: Reader, name: string, op: Op, value: string)
    requires Written("flow", value) && IsFlow(name) && op != Eq
    ensures Filter(rd, name, op, value).None?
  {
    FilterIs(rd, name, op, value);
    hide Filter, Parse, Written;
  }

  /** `flow` accepts the traces of the flow, `rflow` those of the flow back, and `biflow` exactly those that `flow` or
      `rflow` accepts. */
  lemma {:induction false} FlowShorthands(rd: Reader, value: string, tr: Trace)
    requires ReadsBack(rd) && Written("flow", value)
    ensures Accepts(Filter(rd, "biflow", Eq, value), tr) <==>
            Accepts(Filter(rd, "flow", Eq, value), tr) || Accepts(Filter(rd, "rflow", Eq, value), tr)
    ensures rd.flow(value).Some? ==>
              var (sip, dip, sport, dport) := rd.flow(value).value;
              (Accepts(Filter(rd, "flow", Eq, value), tr) <==> FlowOf(tr, sip, dip, sport, dport)) &&
              (Accepts(Filter(rd, "rflow", Eq, value), tr) <==> FlowOf(tr, dip, sip, dport, sport))
  {
    Expansions(rd, value);
    if rd.flow(value).Some? {
      var (sip, dip, sport, dport) := rd.flow(value).value;
      FlowsParse(rd, sip, dip, sport, dport);
    }
    hide Filter, Parse, Test, FlowText, FlowOf, Written, ReadsBack;
  }

  lemma {:induction false} Expansions(rd: Reader, value: string)
    requires Written("flow", value)
    ensures rd.flow(value).None? ==>
              Filter(rd, "flow", Eq, value).None? && Filter(rd, "rflow", Eq, value).None? &&
              Filter(rd, "biflow", Eq, value).None?
    ensures rd.flow(value).Some? ==>
              var (sip, dip, sport, dport) := rd.flow(value).value;
              var (there, back) := (FlowText(sip, dip, sport, dport), FlowText(dip, sip, dport, sport));
              Filter(rd, "flow", Eq, value) == Parse(rd, false, there) &&
              Filter(rd, "rflow", Eq, value) == Parse(rd, false, back) &&
              Filter(rd, "biflow", Eq, value) == Parse(rd, false, "(" + there + ")" + ("|" + ("(" + back + ")")))
  {
    hide Filter, Parse, FlowText, Written;
    FilterIs(rd, "flow", Eq, value);
    FilterIs(rd, "rflow", Eq, value);
    FilterIs(rd, "biflow", Eq, value);
  }

  lemma {:induction false} FlowsParse(rd: Reader, sip: nat, dip: nat, sport: nat, dport: nat)
    requires ReadsBack(rd) && sip < 0x1_0000_0000 && dip < 0x1_0000_0000 && sport < 0x1_0000 && dport < 0x1_0000
    ensures var (there, back) := (FlowText(sip, dip, sport, dport), FlowText(dip, sip, dport, sport));
            var (f, r, b) := (Parse(rd, false, there), Parse(rd, false, back),
                              Parse(rd, false, "(" + there + ")" + ("|" + ("(" + back + ")"))));
            f.Some? && r.Some? && b.Some? &&
            forall tr: Trace ::
              (Test(f.value, tr) <==> FlowOf(tr, sip, dip, sport, dport)) &&
              (Test(r.value, tr) <==> FlowOf(tr, dip, sip, dport, sport)) &&
              (Test(b.value, tr) <==> FlowOf(tr, sip, dip, sport, dport) || FlowOf(tr, dip, sip, dport, sport))
  {
    hide Parse, Test, FlowText, FlowExpr, FlowOf, ReadsBack, Proper, Holds, Good;
    var (there, back) := (FlowText(sip, dip, sport, dport), FlowText(dip, sip, dport, sport));
    var (e, d) := (FlowExpr(sip, dip, sport, dport), FlowExpr(dip, sip, dport, sport));
    FlowMeans(rd, sip, dip, sport, dport);
    FlowMeans(rd, dip, sip, dport, sport);
    BracketMeans(rd, back, d);
    BracketJoinMeans(rd, there, e, "(" + back + ")", d);
    HoldsJoin(rd, e, d);
  }

  /** `queue=node,intf,qidx` accepts exactly the traces of the queue. */
  lemma {:induction false} QueueShorthand(rd: Reader, op: Op, value: string)
    requires ReadsBack(rd) && Written("queue", value)
    ensures Filter(rd, "queue", op, value).Some? <==> op == Eq && rd.queue(value).Some?
    ensures op == Eq && rd.queue(value).Some? ==>
              var (node, intf, qidx) := rd.queue(value).value;
              forall tr: Trace ::
                Test(Filter(rd, "queue", op, value).value, tr) <==>
                  tr("node") == node && tr("intf") == intf && tr("qidx") == qidx
  {
    FilterIs(rd, "queue", op, value);
    if op == Eq && rd.queue(value).Some? {
      var (node, intf, qidx) := rd.queue(value).value;
      QueueMeans(rd, node, intf, qidx);
      hide Parse, Test, QueueText, Proper, Holds;
    }
  }

  lemma {:induction false} QueueMeans(rd: Reader, node: nat, intf: nat, qidx: nat)
    requires ReadsBack(rd) && node < 0x1_0000 && intf < 0x100 && qidx < 0x100
    ensures var n := Parse(rd, false, QueueText(node, intf, qidx));
            n.Some? && forall tr: Trace :: Test(n.value, tr) <==>
              tr("node") == node && tr("intf") == intf && tr("qidx") == qidx
  {
    hide Parse, Test, Text, Holding, ReadsBack, Proper, Holds, Good, Means;
    FieldsHold(node);
    AddressesHold(intf);
    AddressesHold(qidx);
    EqualMeans(rd, "node", node);
    PortsMean(rd, "intf", intf, "qidx", qidx);
    var (s, e) := (Equal("intf", intf) + ("&" + Equal("qidx", qidx)), PortsExpr("intf", intf, "qidx", qidx));
    MeansProper(rd, s, e);
    TermJoinMeans(rd, "node", Dec(node), s, e);
    HoldsJoin(rd, EqualExpr("node", node), e);
    MeansSame(rd, Equal("node", node) + ("&" + s), Both(EqualExpr("node", node), e));
  }

  lemma {:induction false} MeansSame(rd: Reader, s: string, e: Expr)
    requires Means(rd, s, e)
    ensures Proper(e) && Parse(rd, false, s).Some? &&
            forall tr: Trace :: Test(Parse(rd, false, s).value, tr) <==> Holds(rd, e, tr)
  {
  }
}
