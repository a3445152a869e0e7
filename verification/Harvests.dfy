/** Harvest documents and what they ask to be indexed; and a pushdown machine that reads the
    events of such a document. */
module Harvests {
  import opened Schemas
  import opened Wrappers

  type Attrs = seq<(string, string)>

  datatype Xml = Element(name: string, attrs: Attrs, kids: seq<Xml>) | Chars(chars: string)

  datatype Event = Start(name: string, attrs: Attrs) | End(name: string) | Text(chars: string)

  function Events(x: Xml): seq<Event>
    decreases x, 0
  {
    match x
    case Chars(s) => [Text(s)]
    case Element(name, attrs, kids) => [Start(name, attrs)] + EventsAll(kids) + [End(name)]
  }

  function EventsAll(xs: seq<Xml>): seq<Event>
    decreases xs, 1
  {
    if xs == [] then [] else Events(xs[0]) + EventsAll(xs[1..])
  }

  // ---------------------------------------------------------------- what a document means

  /** A token tree as the parser builds it. */
  datatype Tok = Tok(tag: string, text: string, attrs: map<string, string>, kids: seq<Tok>)

  /** The value of the last attribute with the given name. */
  function AttrValue(attrs: Attrs, key: string, default: string): string
    decreases |attrs|
  {
    if attrs == [] then default
    else if Last(attrs).0 == key then Last(attrs).1
    else AttrValue(Init(attrs), key, default)
  }

  /** Of attributes with the same name the first is kept. */
  function AttrMap(attrs: Attrs): map<string, string>
    decreases |attrs|
  {
    if attrs == [] then map[]
    else
      var m := AttrMap(Init(attrs));
      if Last(attrs).0 in m then m else m[Last(attrs).0 := Last(attrs).1]
  }

  function TreeOf(x: Xml): Tok
    requires x.Element?
    decreases x, 0
  {
    Tok(CleanTag(x.name), TextOf(x.kids), AttrMap(x.attrs), TreesOf(x.kids))
  }

  /** The trees of the elements among xs. */
  function TreesOf(xs: seq<Xml>): seq<Tok>
    decreases xs, 1
  {
    if xs == [] then []
    else (if xs[0].Element? then [TreeOf(xs[0])] else []) + TreesOf(xs[1..])
  }

  /** The text directly below an element, without white space. */
  function TextOf(xs: seq<Xml>): string {
    if xs == [] then ""
    else (if xs[0].Chars? then NoSpaces(xs[0].chars) else "") + TextOf(xs[1..])
  }

  /** An expression to be indexed. */
  datatype Expression = Expression(tree: Tok, uri: string, crawlId: nat)

  const CRAWLID_NULL := 0

  /** What has been handed to the processor so far, the ids it gave to data elements, and the
      number of expressions it has counted. */
  datatype Output = Output(expressions: seq<Expression>, data: seq<seq<Event>>, crawlIds: map<string, nat>, parsed: int)

  /** Whether data elements are processed, and how the processor answers: the ids it gives to data
      elements and the counts it returns for expressions, one after another; -1 is a failure. */
  datatype Config = Config(shouldProcessData: bool, answers: nat -> nat, counts: nat -> int)

  function CrawlIdFor(cfg: Config, out: Output, localId: string): nat {
    if cfg.shouldProcessData && localId in out.crawlIds then out.crawlIds[localId] else CRAWLID_NULL
  }

  /** An id that points to no data element is dropped. */
  function Resolved(cfg: Config, out: Output, localId: string): string {
    if cfg.shouldProcessData && localId != "" && localId !in out.crawlIds then "" else localId
  }

  function AddExpression(cfg: Config, out: Output, tree: Tok, uri: string, localId: string): Output {
    var count := cfg.counts(|out.expressions|);
    out.(expressions := out.expressions + [Expression(tree, uri, CrawlIdFor(cfg, out, localId))],
         parsed := out.parsed + if count != -1 then count else 0)
  }

  function AddData(cfg: Config, out: Output, localId: string, copied: seq<Event>): Output {
    if !cfg.shouldProcessData then out
    else
      var crawlId := cfg.answers(|out.data|);
      out.(data := out.data + [copied],
           crawlIds := if crawlId != CRAWLID_NULL then out.crawlIds[localId := crawlId] else out.crawlIds)
  }

  function AddExpressions(cfg: Config, out: Output, trees: seq<Tok>, uri: string, localId: string): Output
    decreases |trees|
  {
    if trees == [] then out
    else AddExpression(cfg, AddExpressions(cfg, out, Init(trees), uri, localId), Last(trees), uri, localId)
  }

  /** What one child of the harvest element contributes: each element in an expr is an expression
      of its own, data elements need an id, and all else is ignored. */
  function Contribute(cfg: Config, out: Output, x: Xml): Output {
    match x
    case Chars(_) => out
    case Element(name, attrs, kids) =>
      if name == "mws:expr" then
        AddExpressions(cfg, out, TreesOf(kids), AttrValue(attrs, "url", ""),
                       Resolved(cfg, out, AttrValue(attrs, "mws:data_id", "")))
      else if name == "mws:data" && AttrValue(attrs, "mws:data_id", "") != "" then
        AddData(cfg, out, AttrValue(attrs, "mws:data_id", ""), EventsAll(kids))
      else out
  }

  function ContributeAll(cfg: Config, out: Output, xs: seq<Xml>): Output
    decreases |xs|
  {
    if xs == [] then out else ContributeAll(cfg, Contribute(cfg, out, xs[0]), xs[1..])
  }

  /** The meaning of a document. */
  function Meaning(cfg: Config, out: Output, root: Xml): Output {
    if root.Element? && root.name == "mws:harvest" then ContributeAll(cfg, out, root.kids) else out
  }

  // ---------------------------------------------------------------- the pushdown machine

  /** An open element. */
  datatype Frame =
    | Harvest
    | ExprFrame(uri: string, localId: string)
    | NodeFrame(tree: Tok)
    | DataFrame(localId: string, copied: seq<Event>)
    | CopyFrame
    | IgnoredFrame

  datatype Machine = Machine(stack: seq<Frame>, out: Output)

  /** The frame for an element that starts below the given stack. */
  function Opened(cfg: Config, m: Machine, name: string, attrs: Attrs): Frame {
    if m.stack == [] then (if name == "mws:harvest" then Harvest else IgnoredFrame)
    else
      match Last(m.stack)
      case Harvest =>
        if name == "mws:expr" then ExprFrame(AttrValue(attrs, "url", ""),
                                             Resolved(cfg, m.out, AttrValue(attrs, "mws:data_id", "")))
        else if name == "mws:data" && AttrValue(attrs, "mws:data_id", "") != "" then
            DataFrame(AttrValue(attrs, "mws:data_id", ""), [])
        else IgnoredFrame
      case ExprFrame(_, _) => NodeFrame(Tok(CleanTag(name), "", AttrMap(attrs), []))
      case NodeFrame(_) => NodeFrame(Tok(CleanTag(name), "", AttrMap(attrs), []))
      case DataFrame(_, _) => CopyFrame
      case CopyFrame => CopyFrame
      case IgnoredFrame => IgnoredFrame
  }

  /** Copies an event into the data element that is open; it lies below the copied elements. */
  function Copied(stack: seq<Frame>, e: Event): seq<Frame>
    decreases |stack|
  {
    if stack == [] then []
    else
      match Last(stack)
      case DataFrame(id, copied) => Init(stack) + [DataFrame(id, copied + [e])]
      case CopyFrame => Copied(Init(stack), e) + [CopyFrame]
      case _ => stack
  }

  function OnText(m: Machine, e: Event): Machine
    requires e.Text?
  {
    if m.stack == [] then m
    else
      match Last(m.stack)
      case NodeFrame(tree) => m.(stack := Init(m.stack) + [NodeFrame(tree.(text := tree.text + NoSpaces(e.chars)))])
      case DataFrame(_, _) => m.(stack := Copied(m.stack, e))
      case CopyFrame => m.(stack := Copied(m.stack, e))
      case _ => m
  }

  /** A finished token becomes a child of its parent, or an expression. */
  function Closed(cfg: Config, m: Machine, tree: Tok): Machine {
    if m.stack == [] then m
    else
      match Last(m.stack)
      case NodeFrame(parent) => m.(stack := Init(m.stack) + [NodeFrame(parent.(kids := parent.kids + [tree]))])
      case ExprFrame(uri, localId) => m.(out := AddExpression(cfg, m.out, tree, uri, localId))
      case _ => m
  }

  function OnEnd(cfg: Config, m: Machine, e: Event): Machine {
    if m.stack == [] then m
    else
      var below := m.(stack := Init(m.stack));
      match Last(m.stack)
      case NodeFrame(tree) => Closed(cfg, below, tree)
      case DataFrame(id, copied) => below.(out := AddData(cfg, m.out, id, copied))
      case CopyFrame => below.(stack := Copied(below.stack, e))
      case _ => below
  }

  function Step(cfg: Config, m: Machine, e: Event): Machine {
    match e
    case Start(name, attrs) =>
      var frame := Opened(cfg, m, name, attrs);
      m.(stack := (if frame == CopyFrame then Copied(m.stack, e) else m.stack) + [frame])
    case Text(_) => OnText(m, e)
    case End(_) => OnEnd(cfg, m, e)
  }

  function Steps(cfg: Config, m: Machine, es: seq<Event>): Machine
    decreases |es|
  {
    if es == [] then m else Steps(cfg, Step(cfg, m, es[0]), es[1..])
  }

  lemma {:induction false} StepsConcat(cfg: Config, m: Machine, a: seq<Event>, b: seq<Event>)
    ensures Steps(cfg, m, a + b) == Steps(cfg, Steps(cfg, m, a), b)
    decreases |a|
  {
    hide Step;
    if a == [] {
      assert a + b == b;
    } else {
      assert (a + b)[1..] == a[1..] + b;
      StepsConcat(cfg, Step(cfg, m, a[0]), a[1..], b);
    }
  }

  lemma StepsOne(cfg: Config, m: Machine, e: Event)
    ensures Steps(cfg, m, [e]) == Step(cfg, m, e)
  {
    hide Step;
    assert [e][1..] == [];
  }

  /** An element is its start, its content and its end. */
  lemma StepsElement(cfg: Config, m: Machine, x: Xml)
    requires x.Element?
    ensures Steps(cfg, m, Events(x)) == Step(cfg, Steps(cfg, Step(cfg, m, Start(x.name, x.attrs)), EventsAll(x.kids)),
                                             End(x.name))
  {
    hide Step, Steps, EventsAll;
    var s, k, e := [Start(x.name, x.attrs)], EventsAll(x.kids), [End(x.name)];
    StepsConcat(cfg, m, s + k, e);
    StepsConcat(cfg, m, s, k);
    StepsOne(cfg, m, s[0]);
    StepsOne(cfg, Steps(cfg, m, s + k), e[0]);
  }

  lemma StepsText(cfg: Config, m: Machine, x: Xml)
    requires x.Chars?
    ensures Steps(cfg, m, Events(x)) == Step(cfg, m, Text(x.chars))
  {
    StepsOne(cfg, m, Text(x.chars));
  }

  lemma StepsAll(cfg: Config, m: Machine, xs: seq<Xml>)
    requires xs != []
    ensures Steps(cfg, m, EventsAll(xs)) == Steps(cfg, Steps(cfg, m, Events(xs[0])), EventsAll(xs[1..]))
  {
    hide Steps, Events;
    StepsConcat(cfg, m, Events(xs[0]), EventsAll(xs[1..]));
  }

  lemma StepsNone(cfg: Config, m: Machine)
    ensures Steps(cfg, m, EventsAll([])) == m
  {
  }

  // ---------------------------------------------------------------- ignored elements

  lemma {:induction false} Ignores(cfg: Config, m: Machine, x: Xml)
    requires m.stack != [] && Last(m.stack) == IgnoredFrame
    ensures Steps(cfg, m, Events(x)) == m
    decreases x, 0
  {
    hide Steps;
    if x.Chars? {
      StepsText(cfg, m, x);
    } else {
      StepsElement(cfg, m, x);
      var m1 := m.(stack := m.stack + [IgnoredFrame]);
      assert Last(m1.stack) == IgnoredFrame && Init(m1.stack) == m.stack;
      IgnoresAll(cfg, m1, x.kids);
    }
  }

  lemma {:induction false} IgnoresAll(cfg: Config, m: Machine, xs: seq<Xml>)
    requires m.stack != [] && Last(m.stack) == IgnoredFrame
    ensures Steps(cfg, m, EventsAll(xs)) == m
    decreases xs, 1
  {
    hide Steps, Events, EventsAll;
    if xs == [] {
      StepsNone(cfg, m);
    } else {
      StepsAll(cfg, m, xs);
      Ignores(cfg, m, xs[0]);
      IgnoresAll(cfg, m, xs[1..]);
    }
  }

  // ---------------------------------------------------------------- data elements

  /** The top of the stack lies in a data element. */
  ghost predicate Copying(stack: seq<Frame>)
    decreases |stack|
  {
    stack != [] && (Last(stack).DataFrame? || (Last(stack).CopyFrame? && Copying(Init(stack))))
  }

  function CopiedAll(stack: seq<Frame>, es: seq<Event>): seq<Frame>
    decreases |es|
  {
    if es == [] then stack else CopiedAll(Copied(stack, es[0]), es[1..])
  }

  lemma {:induction false} CopiedStays(stack: seq<Frame>, e: Event)
    requires Copying(stack)
    ensures Copying(Copied(stack, e)) && |Copied(stack, e)| == |stack|
    ensures Last(Copied(stack, e)).CopyFrame? == Last(stack).CopyFrame?
    decreases |stack|
  {
    if Last(stack).CopyFrame? {
      CopiedStays(Init(stack), e);
      assert Init(Copied(stack, e)) == Copied(Init(stack), e);
    }
  }

  lemma {:induction false} CopiedAllStays(stack: seq<Frame>, es: seq<Event>)
    requires Copying(stack)
    ensures Copying(CopiedAll(stack, es)) && CopiedAll(stack + [CopyFrame], es) == CopiedAll(stack, es) + [CopyFrame]
    decreases |es|
  {
    hide Copying;
    if es != [] {
      CopiedStays(stack, es[0]);
      CopiedAllStays(Copied(stack, es[0]), es[1..]);
      assert Init(stack + [CopyFrame]) == stack && Last(stack + [CopyFrame]) == CopyFrame;
    }
  }

  lemma {:induction false} CopiedConcat(stack: seq<Frame>, a: seq<Event>, b: seq<Event>)
    ensures CopiedAll(stack, a + b) == CopiedAll(CopiedAll(stack, a), b)
    decreases |a|
  {
    hide Copied;
    if a == [] {
      assert a + b == b;
    } else {
      assert (a + b)[1..] == a[1..] + b;
      CopiedConcat(Copied(stack, a[0]), a[1..], b);
    }
  }

  lemma CopiedOne(stack: seq<Frame>, e: Event)
    ensures CopiedAll(stack, [e]) == Copied(stack, e)
  {
    hide Copied;
    assert [e][1..] == [];
  }

  lemma {:induction false} Copies(cfg: Config, m: Machine, x: Xml)
    requires Copying(m.stack)
    ensures Steps(cfg, m, Events(x)) == m.(stack := CopiedAll(m.stack, Events(x)))
    decreases x, 0
  {
    hide Steps, CopiedAll, Copied, EventsAll;
    if x.Chars? {
      StepsText(cfg, m, x);
      CopiedOne(m.stack, Text(x.chars));
    } else {
      var s, e := Start(x.name, x.attrs), End(x.name);
      StepsElement(cfg, m, x);
      var stack1 := Copied(m.stack, s);
      CopiedStays(m.stack, s);
      var m1 := m.(stack := stack1 + [CopyFrame]);
      assert Last(m1.stack) == CopyFrame && Init(m1.stack) == stack1;
      CopiesAll(cfg, m1, x.kids);
      CopiedAllStays(stack1, EventsAll(x.kids));
      var stack2 := CopiedAll(stack1, EventsAll(x.kids));
      assert Last(stack2 + [CopyFrame]) == CopyFrame && Init(stack2 + [CopyFrame]) == stack2;
      CopiedConcat(m.stack, [s] + EventsAll(x.kids), [e]);
      CopiedConcat(m.stack, [s], EventsAll(x.kids));
      CopiedOne(m.stack, s);
      CopiedOne(stack2, e);
    }
  }

  lemma {:induction false} CopiesAll(cfg: Config, m: Machine, xs: seq<Xml>)
    requires Copying(m.stack)
    ensures Steps(cfg, m, EventsAll(xs)) == m.(stack := CopiedAll(m.stack, EventsAll(xs)))
    decreases xs, 1
  {
    hide Steps, Events, CopiedAll, Copying;
    if xs == [] {
      StepsNone(cfg, m);
      CopiedNone(m.stack);
    } else {
      StepsAll(cfg, m, xs);
      Copies(cfg, m, xs[0]);
      CopiedAllStays(m.stack, Events(xs[0]));
      CopiesAll(cfg, m.(stack := CopiedAll(m.stack, Events(xs[0]))), xs[1..]);
      CopiedConcat(m.stack, Events(xs[0]), EventsAll(xs[1..]));
    }
  }

  lemma CopiedNone(stack: seq<Frame>)
    ensures CopiedAll(stack, []) == stack
  {
  }

  lemma {:induction false} CopiedIntoData(below: seq<Frame>, id: string, copied: seq<Event>, es: seq<Event>)
    ensures CopiedAll(below + [DataFrame(id, copied)], es) == below + [DataFrame(id, copied + es)]
    decreases |es|
  {
    if es == [] {
      assert copied + es == copied;
    } else {
      var stack := below + [DataFrame(id, copied)];
      assert Last(stack) == DataFrame(id, copied) && Init(stack) == below;
      CopiedIntoData(below, id, copied + [es[0]], es[1..]);
      assert (copied + [es[0]]) + es[1..] == copied + es;
    }
  }

  // ---------------------------------------------------------------- tokens and expressions

  /** A token tree is built by the events of its element. */
  lemma {:induction false} Builds(cfg: Config, m: Machine, x: Xml)
    requires m.stack != [] && (Last(m.stack).NodeFrame? || Last(m.stack).ExprFrame?) && x.Element?
    ensures Steps(cfg, m, Events(x)) == Closed(cfg, m, TreeOf(x))
    decreases x, 0
  {
    hide Steps, TreesOf, TextOf, AttrMap, Closed;
    StepsElement(cfg, m, x);
    var t := Tok(CleanTag(x.name), "", AttrMap(x.attrs), []);
    var m1 := m.(stack := m.stack + [NodeFrame(t)]);
    BuildsAll(cfg, m1, x.kids, m.stack, t);
    assert "" + TextOf(x.kids) == TextOf(x.kids) && [] + TreesOf(x.kids) == TreesOf(x.kids);
    var stack2 := m.stack + [NodeFrame(TreeOf(x))];
    assert Last(stack2) == NodeFrame(TreeOf(x)) && Init(stack2) == m.stack;
  }

  lemma {:induction false} BuildsAll(cfg: Config, m: Machine, xs: seq<Xml>, below: seq<Frame>, t: Tok)
    requires m.stack == below + [NodeFrame(t)]
    ensures Steps(cfg, m, EventsAll(xs))
         == m.(stack := below + [NodeFrame(t.(text := t.text + TextOf(xs), kids := t.kids + TreesOf(xs)))])
    decreases xs, 1
  {
    hide Steps, Events, EventsAll, NoSpaces, TreeOf, Closed;
    assert Last(m.stack) == NodeFrame(t) && Init(m.stack) == below;
    if xs == [] {
      StepsNone(cfg, m);
      assert t.text + "" == t.text && t.kids + [] == t.kids;
    } else {
      StepsAll(cfg, m, xs);
      var t1 := if xs[0].Chars? then t.(text := t.text + NoSpaces(xs[0].chars))
          else t.(kids := t.kids + [TreeOf(xs[0])]);
      if xs[0].Chars? {
        StepsText(cfg, m, xs[0]);
      } else {
        Builds(cfg, m, xs[0]);
        ClosesBelow(cfg, m, t, TreeOf(xs[0]));
      }
      BuildsAll(cfg, m.(stack := below + [NodeFrame(t1)]), xs[1..], below, t1);
      BuildsFirst(xs, t);
    }
  }

  lemma ClosesBelow(cfg: Config, m: Machine, parent: Tok, tree: Tok)
    requires m.stack != [] && Last(m.stack) == NodeFrame(parent)
    ensures Closed(cfg, m, tree) == m.(stack := Init(m.stack) + [NodeFrame(parent.(kids := parent.kids + [tree]))])
  {
  }

  lemma BuildsFirst(xs: seq<Xml>, t: Tok)
    requires xs != []
    ensures var t1 := if xs[0].Chars? then t.(text := t.text + NoSpaces(xs[0].chars))
              else t.(kids := t.kids + [TreeOf(xs[0])]);
            && t1.text + TextOf(xs[1..]) == t.text + TextOf(xs)
            && t1.kids + TreesOf(xs[1..]) == t.kids + TreesOf(xs)
  {
    hide NoSpaces, TreeOf;
    if xs[0].Chars? {
      assert (t.text + NoSpaces(xs[0].chars)) + TextOf(xs[1..]) == t.text + (NoSpaces(xs[0].chars) + TextOf(xs[1..]));
      assert [] + TreesOf(xs[1..]) == TreesOf(xs[1..]);
    } else {
      assert (t.kids + [TreeOf(xs[0])]) + TreesOf(xs[1..]) == t.kids + ([TreeOf(xs[0])] + TreesOf(xs[1..]));
      assert "" + TextOf(xs[1..]) == TextOf(xs[1..]);
    }
  }

  lemma {:induction false} AddExpressionsConcat(cfg: Config, out: Output, a: seq<Tok>, b: seq<Tok>, uri: string,
                                                localId: string)
    ensures AddExpressions(cfg, out, a + b, uri, localId)
            == AddExpressions(cfg, AddExpressions(cfg, out, a, uri, localId), b, uri, localId)
    decreases |b|
  {
    hide AddExpression;
    if b == [] {
      assert a + b == a;
    } else {
      assert Init(a + b) == a + Init(b) && Last(a + b) == Last(b);
      AddExpressionsConcat(cfg, out, a, Init(b), uri, localId);
    }
  }

  lemma AddExpressionsOne(cfg: Config, out: Output, t: Tok, uri: string, localId: string)
    ensures AddExpressions(cfg, out, [t], uri, localId) == AddExpression(cfg, out, t, uri, localId)
    ensures AddExpressions(cfg, out, [], uri, localId) == out
  {
    assert Init([t]) == [];
  }

  /** Every element in an expr is handed on, in document order. */
  lemma {:induction false} HandsOn(cfg: Config, m: Machine, xs: seq<Xml>, uri: string, localId: string)
    requires m.stack != [] && Last(m.stack) == ExprFrame(uri, localId)
    ensures Steps(cfg, m, EventsAll(xs)) == m.(out := AddExpressions(cfg, m.out, TreesOf(xs), uri, localId))
    decreases xs
  {
    hide Steps, Events, EventsAll, AddExpressions, AddExpression, TreeOf;
    if xs == [] {
      StepsNone(cfg, m);
      AddExpressionsOne(cfg, m.out, Tok("", "", map[], []), uri, localId);
    } else {
      StepsAll(cfg, m, xs);
      var first := if xs[0].Element? then [TreeOf(xs[0])] else [];
      var out1 := AddExpressions(cfg, m.out, first, uri, localId);
      if xs[0].Chars? {
        StepsText(cfg, m, xs[0]);
        AddExpressionsOne(cfg, m.out, Tok("", "", map[], []), uri, localId);
      } else {
        Builds(cfg, m, xs[0]);
        AddExpressionsOne(cfg, m.out, TreeOf(xs[0]), uri, localId);
      }
      HandsOn(cfg, m.(out := out1), xs[1..], uri, localId);
      AddExpressionsConcat(cfg, m.out, first, TreesOf(xs[1..]), uri, localId);
    }
  }

  // ---------------------------------------------------------------- the harvest element

  /** The machine is back where it was, and the output has grown by what the child contributes. */
  lemma ReadsChild(cfg: Config, m: Machine, x: Xml)
    requires m.stack != [] && Last(m.stack) == Harvest
    ensures Steps(cfg, m, Events(x)) == m.(out := Contribute(cfg, m.out, x))
  {
    hide Steps, Events, EventsAll, AddExpressions, TreesOf, AttrValue, AddData, CopiedAll;
    if x.Chars? {
      StepsText(cfg, m, x);
    } else {
      StepsElement(cfg, m, x);
      var frame := Opened(cfg, m, x.name, x.attrs);
      var stack1 := m.stack + [frame];
      assert Last(stack1) == frame && Init(stack1) == m.stack;
      var m1 := m.(stack := stack1);
      match frame {
        case ExprFrame(uri, localId) =>
          HandsOn(cfg, m1, x.kids, uri, localId);
        case DataFrame(id, _) =>
          CopiesAll(cfg, m1, x.kids);
          CopiedIntoData(m.stack, id, [], EventsAll(x.kids));
          assert [] + EventsAll(x.kids) == EventsAll(x.kids);
          var stack2 := m.stack + [DataFrame(id, EventsAll(x.kids))];
          assert Last(stack2) == DataFrame(id, EventsAll(x.kids)) && Init(stack2) == m.stack;
        case IgnoredFrame =>
          IgnoresAll(cfg, m1, x.kids);
      }
    }
  }

  lemma {:induction false} ReadsChildren(cfg: Config, m: Machine, xs: seq<Xml>)
    requires m.stack != [] && Last(m.stack) == Harvest
    ensures Steps(cfg, m, EventsAll(xs)) == m.(out := ContributeAll(cfg, m.out, xs))
    decreases |xs|
  {
    hide Steps, Events, EventsAll, Contribute;
    if xs == [] {
      StepsNone(cfg, m);
    } else {
      StepsAll(cfg, m, xs);
      ReadsChild(cfg, m, xs[0]);
      ReadsChildren(cfg, m.(out := Contribute(cfg, m.out, xs[0])), xs[1..]);
    }
  }

  /** Reading a whole document: the machine is back at the start and has handed on exactly what
      the document means. */
  lemma ReadsDocument(cfg: Config, out: Output, root: Xml)
    ensures Steps(cfg, Machine([], out), Events(root)) == Machine([], Meaning(cfg, out, root))
  {
    hide Steps, Events, EventsAll, ContributeAll;
    var m := Machine([], out);
    if root.Chars? {
      StepsText(cfg, m, root);
    } else {
      StepsElement(cfg, m, root);
      var frame := Opened(cfg, m, root.name, root.attrs);
      var m1 := Machine([frame], out);
      assert [] + [frame] == [frame] && Init([frame]) == [] && Last([frame]) == frame;
      if frame == Harvest {
        ReadsChildren(cfg, m1, root.kids);
      } else {
        IgnoresAll(cfg, m1, root.kids);
      }
    }
  }

  // ---------------------------------------------------------------- nesting

  lemma {:induction false} CopiedLength(stack: seq<Frame>, e: Event)
    ensures |Copied(stack, e)| == |stack|
    decreases |stack|
  {
    if stack != [] && Last(stack).CopyFrame? {
      CopiedLength(Init(stack), e);
    }
  }

  lemma StepDepth(cfg: Config, m: Machine, e: Event)
    ensures |Step(cfg, m, e).stack| == |m.stack| + (if e.Start? then 1 else if e.Text? || m.stack == [] then 0 else -1)
  {
    CopiedLength(m.stack, e);
    if m.stack != [] {
      CopiedLength(Init(m.stack), e);
    }
    hide Copied, AddExpression, AddData, AttrMap, AttrValue, NoSpaces;
  }

  /** After each element the stack is as high as before. */
  lemma {:induction false} SameDepth(cfg: Config, m: Machine, x: Xml)
    ensures |Steps(cfg, m, Events(x)).stack| == |m.stack|
    decreases x, 0
  {
    hide Steps, Step, EventsAll;
    if x.Chars? {
      StepsText(cfg, m, x);
      StepDepth(cfg, m, Text(x.chars));
    } else {
      StepsElement(cfg, m, x);
      var m1 := Step(cfg, m, Start(x.name, x.attrs));
      StepDepth(cfg, m, Start(x.name, x.attrs));
      SameDepthAll(cfg, m1, x.kids);
      StepDepth(cfg, Steps(cfg, m1, EventsAll(x.kids)), End(x.name));
    }
  }

  lemma {:induction false} SameDepthAll(cfg: Config, m: Machine, xs: seq<Xml>)
    ensures |Steps(cfg, m, EventsAll(xs)).stack| == |m.stack|
    decreases xs, 1
  {
    hide Steps, Step, Events, EventsAll;
    if xs == [] {
      StepsNone(cfg, m);
    } else {
      StepsAll(cfg, m, xs);
      SameDepth(cfg, m, xs[0]);
      SameDepthAll(cfg, Steps(cfg, m, Events(xs[0])), xs[1..]);
    }
  }

  // ---------------------------------------------------------------- events determine elements

  /** What follows the content of an element: its end, or nothing. */
  ghost predicate EndsHere(rest: seq<Event>)
  {
    rest == [] || rest[0].End?
  }

  /** So the events handed on of a data element tell its content. */
  lemma {:induction false} EventsDetermine(x: Xml, y: Xml, rest: seq<Event>, rest': seq<Event>)
    requires Events(x) + rest == Events(y) + rest'
    ensures x == y && rest == rest'
    decreases x, 0
  {
    hide EventsAll;
    var a, b := Events(x) + rest, Events(y) + rest';
    FirstEvent(x, rest);
    FirstEvent(y, rest');
    assert a[0] == b[0] && a[1..] == b[1..];
    if x.Element? {
      EventsAllDetermine(x.kids, y.kids, [End(x.name)] + rest, [End(y.name)] + rest');
      assert ([End(x.name)] + rest)[1..] == rest && ([End(y.name)] + rest')[1..] == rest';
    }
  }

  lemma FirstEvent(x: Xml, rest: seq<Event>)
    ensures var a := Events(x) + rest;
            && a != [] && a[0] == (if x.Chars? then Text(x.chars) else Start(x.name, x.attrs))
            && a[1..] == if x.Chars? then rest else EventsAll(x.kids) + ([End(x.name)] + rest)
  {
    hide EventsAll;
    if x.Element? {
      var k := EventsAll(x.kids);
      assert Events(x) + rest == [Start(x.name, x.attrs)] + (k + ([End(x.name)] + rest));
    }
  }

  lemma {:induction false} EventsAllDetermine(xs: seq<Xml>, ys: seq<Xml>, rest: seq<Event>, rest': seq<Event>)
    requires EndsHere(rest) && EndsHere(rest') && EventsAll(xs) + rest == EventsAll(ys) + rest'
    ensures xs == ys && rest == rest'
    decreases xs, 1
  {
    hide Events;
    EventsAllParts(xs, rest);
    EventsAllParts(ys, rest');
    if xs != [] && ys != [] {
      EventsDetermine(xs[0], ys[0], EventsAll(xs[1..]) + rest, EventsAll(ys[1..]) + rest');
      EventsAllDetermine(xs[1..], ys[1..], rest, rest');
      assert xs == [xs[0]] + xs[1..] && ys == [ys[0]] + ys[1..];
    }
  }

  lemma EventsAllParts(xs: seq<Xml>, rest: seq<Event>)
    ensures xs == [] ==> EventsAll(xs) + rest == rest
    ensures xs != [] ==>
              && EventsAll(xs) + rest == Events(xs[0]) + (EventsAll(xs[1..]) + rest)
              && EventsAll(xs) + rest != [] && !(EventsAll(xs) + rest)[0].End?
  {
    hide Events, EventsAll;
    if xs == [] {
      NoEvents();
    } else {
      FirstEvent(xs[0], EventsAll(xs[1..]) + rest);
      EventsOfFirst(xs);
      assert (Events(xs[0]) + EventsAll(xs[1..])) + rest == Events(xs[0]) + (EventsAll(xs[1..]) + rest);
    }
  }

  lemma NoEvents()
    ensures EventsAll([]) == []
  {
  }

  lemma EventsOfFirst(xs: seq<Xml>)
    requires xs != []
    ensures EventsAll(xs) == Events(xs[0]) + EventsAll(xs[1..])
  {
  }
}
