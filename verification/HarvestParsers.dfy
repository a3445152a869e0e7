/** The harvest parser: a few flat variables that record where in the document the parser is. */
module HarvestParsers {
  import opened Harvests
  import opened HarvestDocuments
  import opened Schemas
  import opened Wrappers

  datatype MwsHarvestState = DEFAULT | IN_MWS_HARVEST | IN_MWS_EXPR | IN_MWS_DATA | UNKNOWN

  class HarvestParser {
    const cfg: Config
    var state: MwsHarvestState
    var unknownDepth: nat
    var prevState: MwsHarvestState
    var localIdToCrawlIds: map<string, nat>
    /** The token under construction is the last one; the others are its ancestors. */
    var tokens: seq<Tok>
    var copyDepth: nat
    /** The calls made to the writer that copies a data element. */
    var writer: seq<Event>
    var exprUri: string
    var localId: string
    var parsedExpr: int
    /** The calls made to the processor. */
    var expressions: seq<Expression>
    var data: seq<seq<Event>>

    ghost predicate Valid()
      reads this
    {
      && (state == UNKNOWN ==> unknownDepth > 0 && prevState in {DEFAULT, IN_MWS_HARVEST})
      && (state == IN_MWS_DATA ==> copyDepth > 0)
      && (state != IN_MWS_EXPR ==> tokens == [])
    }

    /** The open elements that the variables stand for. */
    ghost function Stack(): seq<Frame>
      reads this
      requires Valid()
    {
      match state
      case DEFAULT => []
      case IN_MWS_HARVEST => [Harvest]
      case IN_MWS_EXPR => ExprStack(exprUri, localId, tokens)
      case IN_MWS_DATA => DataStack(localId, writer, copyDepth)
      case UNKNOWN => IgnoredStack(prevState != DEFAULT, unknownDepth)
    }

    ghost function Abs(): Machine
      reads this
      requires Valid()
    {
      Machine(Stack(), Output(expressions, data, localIdToCrawlIds, parsedExpr))
    }

    constructor (cfg: Config)
      ensures Valid() && this.cfg == cfg && Abs() == Machine([], Output([], [], map[], 0))
    {
      this.cfg, state, unknownDepth, prevState, localIdToCrawlIds := cfg, DEFAULT, 0, DEFAULT, map[];
      tokens, copyDepth, writer, exprUri, localId, parsedExpr := [], 0, [], "", "", 0;
      expressions, data := [], [];
    }

    method StartElement(name: string, attrs: Attrs)
      requires Valid()
      modifies this
      ensures Valid() && Abs() == Step(cfg, old(Abs()), Start(name, attrs))
    {
      hide AttrValue, AttrMap, NoSpaces, CleanTag, ExprStack, DataStack, IgnoredStack, Step;
      ghost var out := Abs().out;
      match state {
        case DEFAULT =>
          OpensRoot(cfg, out, name, attrs);
          if name == "mws:harvest" {
            state := IN_MWS_HARVEST;
          } else {
            GoUnknown();
          }
        case IN_MWS_HARVEST =>
          OpensChild(cfg, out, name, attrs);
          if name == "mws:expr" {
            state := IN_MWS_EXPR;
            exprUri := FindAttr(attrs, "url", "");
            localId := FindAttr(attrs, "mws:data_id", "");
            if cfg.shouldProcessData && localId != "" && localId !in localIdToCrawlIds {
              localId := "";
            }
          } else if name == "mws:data" {
            localId := FindAttr(attrs, "mws:data_id", "");
            if localId == "" {
              GoUnknown();
            } else {
              writer, state, copyDepth := [], IN_MWS_DATA, 1;
            }
          } else {
            GoUnknown();
          }
        case IN_MWS_EXPR =>
          OpensToken(cfg, out, exprUri, localId, tokens, name, attrs);
          var attributes := CollectAttrs(attrs);
          tokens := tokens + [Tok(CleanTag(name), "", attributes, [])];
        case IN_MWS_DATA =>
          OpensCopy(cfg, out, localId, writer, copyDepth, name, attrs);
          copyDepth := copyDepth + 1;
          writer := writer + [Start(name, attrs)];
        case UNKNOWN =>
          OpensIgnored(cfg, out, prevState != DEFAULT, unknownDepth, name, attrs);
          unknownDepth := unknownDepth + 1;
      }
    }

    method GoUnknown()
      requires Valid() && state in {DEFAULT, IN_MWS_HARVEST}
      modifies this`prevState, this`state, this`unknownDepth
      ensures Valid() && Stack() == IgnoredStack(old(state) != DEFAULT, 1)
    {
      prevState, state, unknownDepth := state, UNKNOWN, 1;
    }

    method EndElement(name: string)
      requires Valid() && state != DEFAULT
      modifies this
      ensures Valid() && Abs() == Step(cfg, old(Abs()), End(name))
    {
      hide AttrValue, AttrMap, NoSpaces, CleanTag, ExprStack, DataStack, IgnoredStack, Step, AddExpression, AddData;
      ghost var out := Abs().out;
      match state {
        case IN_MWS_HARVEST =>
          ClosesHarvest(cfg, out, name);
          state := DEFAULT;
        case IN_MWS_EXPR =>
          ClosesToken(cfg, out, exprUri, localId, tokens, name);
          if tokens == [] {
            state := IN_MWS_HARVEST;
          } else if |tokens| == 1 {
            ProcessExpression(tokens[0]);
            tokens := [];
          } else {
            var parent, token := tokens[|tokens| - 2], Last(tokens);
            tokens := tokens[..|tokens| - 2] + [parent.(kids := parent.kids + [token])];
          }
        case IN_MWS_DATA =>
          ClosesCopy(cfg, out, localId, writer, copyDepth, name);
          // The writer has no open element left when the data element itself ends.
          if copyDepth > 1 {
            writer := writer + [End(name)];
          }
          copyDepth := copyDepth - 1;
          if copyDepth == 0 {
            state := IN_MWS_HARVEST;
            ProcessData();
          }
        case UNKNOWN =>
          ClosesIgnored(cfg, out, prevState != DEFAULT, unknownDepth, name);
          unknownDepth := unknownDepth - 1;
          if unknownDepth == 0 {
            state := prevState;
          }
      }
    }

    method Characters(chars: string)
      requires Valid()
      modifies this
      ensures Valid() && Abs() == Step(cfg, old(Abs()), Text(chars))
    {
      hide AttrValue, AttrMap, NoSpaces, CleanTag, ExprStack, DataStack, IgnoredStack, Step;
      ghost var out := Abs().out;
      if state == IN_MWS_EXPR && tokens != [] {
        ReadsTokenText(cfg, out, exprUri, localId, tokens, chars);
        var token := Last(tokens);
        tokens := Init(tokens) + [token.(text := token.text + NoSpaces(chars))];
      } else if state == IN_MWS_DATA {
        CopiesText(cfg, out, localId, writer, copyDepth, chars);
        writer := writer + [Text(chars)];
      } else {
        SkipsText(cfg, out, exprUri, localId, prevState != DEFAULT, unknownDepth, chars);
      }
    }

    /** Hands a token tree to the processor, with the id of the data element its expr refers to. */
    method ProcessExpression(tree: Tok)
      modifies this`expressions, this`parsedExpr
      ensures Output(expressions, data, localIdToCrawlIds, parsedExpr)
           == AddExpression(cfg, old(Output(expressions, data, localIdToCrawlIds, parsedExpr)), tree, exprUri, localId)
    {
      var crawlId := CRAWLID_NULL;
      if cfg.shouldProcessData && localId in localIdToCrawlIds {
        crawlId := localIdToCrawlIds[localId];
      }
      var ret := cfg.counts(|expressions|);
      expressions := expressions + [Expression(tree, exprUri, crawlId)];
      if ret != -1 {
        parsedExpr := parsedExpr + ret;
      }
    }

    method ProcessData()
      modifies this`data, this`localIdToCrawlIds
      ensures Output(expressions, data, localIdToCrawlIds, parsedExpr)
           == AddData(cfg, old(Output(expressions, data, localIdToCrawlIds, parsedExpr)), localId, writer)
    {
      if cfg.shouldProcessData {
        var crawlId := cfg.answers(|data|);
        data := data + [writer];
        if crawlId != CRAWLID_NULL {
          localIdToCrawlIds := localIdToCrawlIds[localId := crawlId];
        }
      }
    }

    /** The parser library reports the elements of a document in this order. */
    method Parse(x: Xml)
      requires Valid() && (x.Chars? || state == DEFAULT || Stack() != [])
      modifies this
      ensures Valid() && Abs() == Steps(cfg, old(Abs()), Events(x))
      decreases x, 0
    {
      hide Step, Steps, Events, EventsAll, ExprStack, DataStack, IgnoredStack;
      ghost var m := Abs();
      match x {
        case Chars(s) =>
          StepsText(cfg, m, x);
          Characters(s);
        case Element(name, attrs, kids) =>
          StepsElement(cfg, m, x);
          StepDepth(cfg, m, Start(name, attrs));
          StartElement(name, attrs);
          SameDepthAll(cfg, Abs(), kids);
          ParseAll(kids);
          EndElement(name);
      }
    }

    method ParseAll(xs: seq<Xml>)
      requires Valid() && Stack() != []
      modifies this
      ensures Valid() && Abs() == Steps(cfg, old(Abs()), EventsAll(xs))
      decreases xs, 1
    {
      hide Step, Steps, Events, EventsAll, ExprStack, DataStack, IgnoredStack;
      ghost var m := Abs();
      if xs == [] {
        StepsNone(cfg, m);
      } else {
        StepsAll(cfg, m, xs);
        SameDepth(cfg, m, xs[0]);
        Parse(xs[0]);
        ParseAll(xs[1..]);
      }
    }
  }

  /** Reads a whole document: the calls to the processor are those the document asks for. */
  method LoadHarvest(cfg: Config, root: Xml) returns (out: Output)
    ensures out == Meaning(cfg, Output([], [], map[], 0), root) && Answers(cfg, root, out)
  {
    hide Steps, Events, Meaning, Answers;
    MeaningAnswers(cfg, root);
    var parser := new HarvestParser(cfg);
    parser.Parse(root);
    ReadsDocument(cfg, Output([], [], map[], 0), root);
    out := Output(parser.expressions, parser.data, parser.localIdToCrawlIds, parser.parsedExpr);
  }

  // ---------------------------------------------------------------- attributes

  method FindAttr(attrs: Attrs, key: string, default: string) returns (value: string)
    ensures value == AttrValue(attrs, key, default)
  {
    value := default;
    var i := 0;
    while i < |attrs|
      invariant 0 <= i <= |attrs| && value == AttrValue(attrs[..i], key, default)
    {
      assert Init(attrs[..i + 1]) == attrs[..i] && Last(attrs[..i + 1]) == attrs[i];
      if attrs[i].0 == key {
        value := attrs[i].1;
      }
      i := i + 1;
    }
    assert attrs[..i] == attrs;
  }

  method CollectAttrs(attrs: Attrs) returns (attributes: map<string, string>)
    ensures attributes == AttrMap(attrs)
  {
    attributes := map[];
    var i := 0;
    while i < |attrs|
      invariant 0 <= i <= |attrs| && attributes == AttrMap(attrs[..i])
    {
      assert Init(attrs[..i + 1]) == attrs[..i] && Last(attrs[..i + 1]) == attrs[i];
      if attrs[i].0 !in attributes {
        attributes := attributes[attrs[i].0 := attrs[i].1];
      }
      i := i + 1;
    }
    assert attrs[..i] == attrs;
  }

  // ---------------------------------------------------------------- stacks

  ghost function Nodes(tokens: seq<Tok>): (r: seq<Frame>)
    ensures |r| == |tokens|
  {
    seq(|tokens|, i requires 0 <= i < |tokens| => NodeFrame(tokens[i]))
  }

  ghost function ExprStack(uri: string, id: string, tokens: seq<Tok>): seq<Frame> {
    [Harvest, ExprFrame(uri, id)] + Nodes(tokens)
  }

  ghost function DataStack(id: string, writer: seq<Event>, depth: nat): seq<Frame>
    requires depth > 0
    decreases depth
  {
    if depth == 1 then [Harvest, DataFrame(id, writer)] else DataStack(id, writer, depth - 1) + [CopyFrame]
  }

  ghost function IgnoredStack(inHarvest: bool, depth: nat): (r: seq<Frame>)
    requires depth > 0
    ensures r != [] && Last(r) == IgnoredFrame
    decreases depth
  {
    if depth == 1 then (if inHarvest then [Harvest] else []) + [IgnoredFrame]
        else IgnoredStack(inHarvest, depth - 1) + [IgnoredFrame]
  }

  lemma OpensRoot(cfg: Config, out: Output, name: string, attrs: Attrs)
    ensures Step(cfg, Machine([], out), Start(name, attrs))
         == Machine(if name == "mws:harvest" then [Harvest] else IgnoredStack(false, 1), out)
  {
  }

  lemma OpensChild(cfg: Config, out: Output, name: string, attrs: Attrs)
    ensures var id := AttrValue(attrs, "mws:data_id", "");
            Step(cfg, Machine([Harvest], out), Start(name, attrs))
            == Machine(if name == "mws:expr" then ExprStack(AttrValue(attrs, "url", ""), Resolved(cfg, out, id), [])
                       else if name == "mws:data" && id != "" then DataStack(id, [], 1)
                       else IgnoredStack(true, 1), out)
  {
    hide AttrValue, Resolved;
    assert Last([Harvest]) == Harvest;
  }

  lemma OpensToken(cfg: Config, out: Output, uri: string, id: string, tokens: seq<Tok>, name: string, attrs: Attrs)
    ensures Step(cfg, Machine(ExprStack(uri, id, tokens), out), Start(name, attrs))
         == Machine(ExprStack(uri, id, tokens + [Tok(CleanTag(name), "", AttrMap(attrs), [])]), out)
  {
    hide AttrMap, CleanTag;
    var tok := Tok(CleanTag(name), "", AttrMap(attrs), []);
    assert Nodes(tokens + [tok]) == Nodes(tokens) + [NodeFrame(tok)];
  }

  lemma OpensCopy(cfg: Config, out: Output, id: string, writer: seq<Event>, depth: nat, name: string, attrs: Attrs)
    requires depth > 0
    ensures Step(cfg, Machine(DataStack(id, writer, depth), out), Start(name, attrs))
         == Machine(DataStack(id, writer + [Start(name, attrs)], depth + 1), out)
  {
    CopiedData(id, writer, depth, Start(name, attrs));
  }

  lemma {:induction false} CopiedData(id: string, writer: seq<Event>, depth: nat, e: Event)
    requires depth > 0
    ensures Copied(DataStack(id, writer, depth), e) == DataStack(id, writer + [e], depth)
    ensures var stack := DataStack(id, writer, depth);
            stack != [] && Last(stack) == if depth == 1 then DataFrame(id, writer) else CopyFrame
    decreases depth
  {
    if depth > 1 {
      CopiedData(id, writer, depth - 1, e);
      assert Init(DataStack(id, writer, depth)) == DataStack(id, writer, depth - 1);
    } else {
      assert Init([Harvest, DataFrame(id, writer)]) == [Harvest];
    }
  }

  lemma OpensIgnored(cfg: Config, out: Output, inHarvest: bool, depth: nat, name: string, attrs: Attrs)
    requires depth > 0
    ensures Step(cfg, Machine(IgnoredStack(inHarvest, depth), out), Start(name, attrs))
            == Machine(IgnoredStack(inHarvest, depth + 1), out)
  {
  }

  lemma ClosesHarvest(cfg: Config, out: Output, name: string)
    ensures Step(cfg, Machine([Harvest], out), End(name)) == Machine([], out)
  {
    assert Init([Harvest]) == [] && Last([Harvest]) == Harvest;
  }

  lemma ClosesToken(cfg: Config, out: Output, uri: string, id: string, tokens: seq<Tok>, name: string)
    ensures Step(cfg, Machine(ExprStack(uri, id, tokens), out), End(name))
         == if tokens == [] then Machine([Harvest], out)
            else if |tokens| == 1 then Machine(ExprStack(uri, id, []), AddExpression(cfg, out, tokens[0], uri, id))
            else
              var parent := tokens[|tokens| - 2];
              Machine(ExprStack(uri, id, tokens[..|tokens| - 2] + [parent.(kids := parent.kids + [Last(tokens)])]), out)
  {
    hide AddExpression;
    var stack := ExprStack(uri, id, tokens);
    if tokens == [] {
      assert Last(stack) == ExprFrame(uri, id) && Init(stack) == [Harvest];
    } else if |tokens| == 1 {
      assert Last(stack) == NodeFrame(tokens[0]) && Init(stack) == ExprStack(uri, id, []);
      assert Last(ExprStack(uri, id, [])) == ExprFrame(uri, id);
    } else {
      var n, parent := |tokens| - 2, tokens[|tokens| - 2];
      var parent' := parent.(kids := parent.kids + [Last(tokens)]);
      assert Last(stack) == NodeFrame(Last(tokens)) && Init(stack) == ExprStack(uri, id, tokens[..n + 1]);
      assert Last(Init(stack)) == NodeFrame(parent) && Init(Init(stack)) == ExprStack(uri, id, tokens[..n]);
      assert Nodes(tokens[..n] + [parent']) == Nodes(tokens[..n]) + [NodeFrame(parent')];
    }
  }

  lemma ClosesCopy(cfg: Config, out: Output, id: string, writer: seq<Event>, depth: nat, name: string)
    requires depth > 0
    ensures Step(cfg, Machine(DataStack(id, writer, depth), out), End(name))
         == if depth == 1 then Machine([Harvest], AddData(cfg, out, id, writer))
            else Machine(DataStack(id, writer + [End(name)], depth - 1), out)
  {
    hide AddData;
    var stack := DataStack(id, writer, depth);
    CopiedData(id, writer, depth, End(name));
    if depth == 1 {
      assert Init(stack) == [Harvest];
    } else {
      CopiedData(id, writer, depth - 1, End(name));
      assert Init(stack) == DataStack(id, writer, depth - 1);
    }
  }

  lemma ClosesIgnored(cfg: Config, out: Output, inHarvest: bool, depth: nat, name: string)
    requires depth > 0
    ensures Step(cfg, Machine(IgnoredStack(inHarvest, depth), out), End(name))
         == Machine(if depth > 1 then IgnoredStack(inHarvest, depth - 1) else if inHarvest then [Harvest] else [], out)
  {
    var stack := IgnoredStack(inHarvest, depth);
    assert Init(stack) == if depth > 1 then IgnoredStack(inHarvest, depth - 1) else if inHarvest then [Harvest] else [];
  }

  lemma ReadsTokenText(cfg: Config, out: Output, uri: string, id: string, tokens: seq<Tok>, chars: string)
    requires tokens != []
    ensures var token := Last(tokens);
            Step(cfg, Machine(ExprStack(uri, id, tokens), out), Text(chars))
            == Machine(ExprStack(uri, id, Init(tokens) + [token.(text := token.text + NoSpaces(chars))]), out)
  {
    hide NoSpaces;
    var stack, token := ExprStack(uri, id, tokens), Last(tokens);
    var token' := token.(text := token.text + NoSpaces(chars));
    assert Last(stack) == NodeFrame(token) && Init(stack) == ExprStack(uri, id, Init(tokens));
    assert Nodes(Init(tokens) + [token']) == Nodes(Init(tokens)) + [NodeFrame(token')];
  }

  lemma CopiesText(cfg: Config, out: Output, id: string, writer: seq<Event>, depth: nat, chars: string)
    requires depth > 0
    ensures Step(cfg, Machine(DataStack(id, writer, depth), out), Text(chars))
            == Machine(DataStack(id, writer + [Text(chars)], depth), out)
  {
    CopiedData(id, writer, depth, Text(chars));
  }

  lemma SkipsText(cfg: Config, out: Output, uri: string, id: string, inHarvest: bool, depth: nat, chars: string)
    ensures Step(cfg, Machine([], out), Text(chars)) == Machine([], out)
    ensures Step(cfg, Machine([Harvest], out), Text(chars)) == Machine([Harvest], out)
    ensures Step(cfg, Machine(ExprStack(uri, id, []), out), Text(chars)) == Machine(ExprStack(uri, id, []), out)
    ensures depth > 0 ==>
              Step(cfg, Machine(IgnoredStack(inHarvest, depth), out), Text(chars))
                  == Machine(IgnoredStack(inHarvest, depth), out)
  {
    assert Last([Harvest]) == Harvest && Last(ExprStack(uri, id, [])) == ExprFrame(uri, id);
  }
}
