/** Content MathML expressions as the encoder and the index builder walk over them. */
module Expressions {
  import opened Wrappers

  /** An element; name is its name attribute, which only variables use, and xpath tells its place. */
  datatype Expr = Expr(tag: string, text: string, name: Option<string>, xpath: string, kids: seq<Expr>) {

    predicate IsVar() {
      tag == "mws:qvar"
    }

    predicate IsRange() {
      tag == "mws:range"
    }

    function VarName(): string
      requires IsVar()
    {
      if name.Some? then name.value else text
    }

    /** The text of an mtext is discarded. */
    function Meaning(): string {
      if tag == "mtext" then "mtext#" else tag + "#" + text
    }
  }

  /** A subexpression in its place; head tells that it is the first child of an apply. */
  datatype Item = Item(e: Expr, head: bool)

  /** All subexpressions, each before its children. */
  function Flat(e: Expr, head: bool): (r: seq<Item>)
    ensures r != [] && r[0] == Item(e, head)
    decreases e, 0
  {
    [Item(e, head)] + FlatAll(e.kids, e.tag == "apply")
  }

  function FlatAll(es: seq<Expr>, head: bool): seq<Item>
    decreases es, 1
  {
    if es == [] then [] else Flat(es[0], head) + FlatAll(es[1..], false)
  }

  // ---------------------------------------------------------------- walking with a stack

  /** What is still to be visited; the top of the stack is its last element. */
  function FlatStack(stack: seq<Item>): seq<Item>
    decreases |stack|
  {
    if stack == [] then [] else Flat(Last(stack).e, Last(stack).head) + FlatStack(Init(stack))
  }

  /** Puts the children on the stack, last child first. */
  method PushKids(e: Expr, stack: seq<Item>) returns (stack': seq<Item>)
    ensures FlatStack(stack') == FlatAll(e.kids, e.tag == "apply") + FlatStack(stack)
  {
    stack' := stack;
    var i := |e.kids|;
    assert FlatAll([], false) + FlatStack(stack) == FlatStack(stack);
    while i > 0
      invariant 0 <= i <= |e.kids|
      invariant FlatStack(stack') == FlatAll(e.kids[i..], i == 0 && e.tag == "apply") + FlatStack(stack)
    {
      i := i - 1;
      var it := Item(e.kids[i], i == 0 && e.tag == "apply");
      PushOne(stack', it, e.kids[i..], FlatStack(stack));
      stack' := stack' + [it];
    }
    assert e.kids[0..] == e.kids;
  }

  lemma PushOne(stack: seq<Item>, it: Item, es: seq<Expr>, rest: seq<Item>)
    requires es != [] && it.e == es[0] && FlatStack(stack) == FlatAll(es[1..], false) + rest
    ensures FlatStack(stack + [it]) == FlatAll(es, it.head) + rest
  {
    assert Init(stack + [it]) == stack;
    assert Flat(it.e, it.head) + (FlatAll(es[1..], false) + rest)
           == (Flat(it.e, it.head) + FlatAll(es[1..], false)) + rest;
  }

  /** Taking the top and pushing its children goes on to the next subexpression. */
  lemma PopOne(stack: seq<Item>)
    requires stack != []
    ensures FlatStack(stack) == [Last(stack)]
            + (FlatAll(Last(stack).e.kids, Last(stack).e.tag == "apply") + FlatStack(Init(stack)))
  {
    var it := Last(stack);
    var below := FlatStack(Init(stack));
    assert ([it] + FlatAll(it.e.kids, it.e.tag == "apply")) + below
           == [it] + (FlatAll(it.e.kids, it.e.tag == "apply") + below);
  }

  lemma NothingToVisit(stack: seq<Item>)
    ensures FlatStack(stack) == [] <==> stack == []
  {
  }
}
