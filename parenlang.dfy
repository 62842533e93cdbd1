/**
 * The language of balanced parentheses used by the example service
 * (monto-parenlang): its syntax tree, printer, recursive-descent parser,
 * and the depth the service reports.
 */
module ParenLang {
  import opened Wrappers
  import opened Messages

  /** A node and its children, in order. */
  datatype Ast = Ast(children: seq<Ast>)

  /** A parse error, with the index it happened at. */
  datatype ParseError = UnexpectedEof(index: nat) | UnknownChar(index: nat, c: char)

  // ---------------------------------------------------------------------
  // Display
  // ---------------------------------------------------------------------

  /** The number of nodes. */
  function Size(a: Ast): nat {
    1 + SizeAll(a.children)
  }

  function SizeAll(s: seq<Ast>): nat {
    if |s| == 0 then 0 else Size(s[0]) + SizeAll(s[1..])
  }

  /** A text made only of parentheses. */
  predicate OnlyParens(t: string) {
    forall k :: 0 <= k < |t| ==> t[k] == '(' || t[k] == ')'
  }

  /** `Display for Ast`: '(' then each child, then ')'; two characters
   *  per node. */
  function Show(a: Ast): (r: string)
    ensures |r| == 2 * Size(a)
    ensures r[0] == '(' && r[|r| - 1] == ')'
  {
    "(" + ShowAll(a.children) + ")"
  }

  function ShowAll(s: seq<Ast>): (r: string)
    ensures |r| == 2 * SizeAll(s)
  {
    if |s| == 0 then "" else Show(s[0]) + ShowAll(s[1..])
  }

  /** A display holds nothing but parentheses. */
  lemma {:induction false} ShowOnlyParens(a: Ast)
    ensures OnlyParens(Show(a))
    decreases a, 1
  {
    ShowAllOnlyParens(a.children);
  }

  lemma {:induction false} ShowAllOnlyParens(s: seq<Ast>)
    ensures OnlyParens(ShowAll(s))
    decreases s, 0
  {
    if |s| > 0 {
      ShowOnlyParens(s[0]);
      ShowAllOnlyParens(s[1..]);
    }
  }

  // ---------------------------------------------------------------------
  // The parser as written
  // ---------------------------------------------------------------------

  /** What `one` does: return (a tree or an error, and where the index was
   *  left), or panic on the unchecked `c[*i]` of its loop. */
  datatype Outcome = Returned(result: Result<Ast, ParseError>, next: nat) | Panicked

  /** `one`: a tree starting at `i`. A successful parse consumes at least
   *  its two parentheses and stays within the input. */
  function ParseOne(c: seq<char>, i: nat): (r: Outcome)
    ensures r.Returned? && r.result.Ok? ==> i + 2 <= r.next <= |c|
    decreases |c| - i, 0
  {
    if i >= |c| then Returned(Err(UnexpectedEof(i)), i)
    else if c[i] != '(' then Returned(Err(UnknownChar(i, c[i])), i)
    else ParseChildren(c, i + 1, [])
  }

  /** The loop of `one`, having parsed the children `acc` and standing at
   *  `j`: a ')' ends the node, anything else is another child. */
  function ParseChildren(c: seq<char>, j: nat, acc: seq<Ast>): (r: Outcome)
    requires j >= 1
    ensures r.Returned? && r.result.Ok? ==> j + 1 <= r.next <= |c|
    decreases |c| - j, 1
  {
    if j >= |c| then Panicked
    else if c[j] == ')' then Returned(Ok(Ast(acc)), j + 1)
    else
      match ParseOne(c, j)
      case Panicked => Panicked
      case Returned(Err(e), k) => Returned(Err(e), k)
      case Returned(Ok(child), k) => ParseChildren(c, k, acc + [child])
  }

  /** A successful parse consumed exactly the display of the tree it
   *  returned. */
  lemma {:induction false} ParseConsumesShow(c: seq<char>, i: nat)
    requires ParseOne(c, i).Returned? && ParseOne(c, i).result.Ok?
    ensures c[i..ParseOne(c, i).next] == Show(ParseOne(c, i).result.value)
    decreases |c| - i, 0
  {
    ChildrenConsumeShow(c, i + 1, []);
    var r := ParseOne(c, i);
    assert c[i..r.next] == [c[i]] + c[i + 1..r.next];
  }

  lemma {:induction false} ChildrenConsumeShow(c: seq<char>, j: nat, acc: seq<Ast>)
    requires j >= 1
    requires ParseChildren(c, j, acc).Returned? && ParseChildren(c, j, acc).result.Ok?
    ensures var r := ParseChildren(c, j, acc); var kids := r.result.value.children;
      |acc| <= |kids| && kids[..|acc|] == acc && c[j..r.next] == ShowAll(kids[|acc|..]) + ")"
    decreases |c| - j, 1
  {
    var r := ParseChildren(c, j, acc);
    var kids := r.result.value.children;
    if c[j] == ')' {
      assert kids == acc;
      assert c[j..j + 1] == ")";
    } else {
      var o := ParseOne(c, j);
      var child := o.result.value;
      ChildrenStep(c, j, acc, child, o.next);
      ParseConsumesShow(c, j);
      ChildrenConsumeShow(c, o.next, acc + [child]);
      ConsumeStep(c, j, o.next, r.next, acc, child, kids);
    }
  }

  /** A child's display followed by the display of the later children and
   *  the ')' is the display of the children from that child on. */
  lemma ConsumeStep(c: seq<char>, j: nat, k: nat, n: nat, acc: seq<Ast>, child: Ast, kids: seq<Ast>)
    requires j <= k <= n <= |c| && c[j..k] == Show(child)
    requires |acc| + 1 <= |kids| && kids[..|acc| + 1] == acc + [child]
    requires c[k..n] == ShowAll(kids[|acc| + 1..]) + ")"
    ensures |acc| <= |kids| && kids[..|acc|] == acc && c[j..n] == ShowAll(kids[|acc|..]) + ")"
  {
    var more := kids[|acc| + 1..];
    assert kids[..|acc|] == kids[..|acc| + 1][..|acc|];
    assert kids[|acc|..] == [child] + more;
    ShowAllCons(child, more);
    SliceJoin(c, j, k, n);
  }

  /** Adjacent slices join. */
  lemma SliceJoin(c: seq<char>, i: nat, k: nat, n: nat)
    requires i <= k <= n <= |c|
    ensures c[i..n] == c[i..k] + c[k..n]
  {
  }

  /** Showing a list that starts with `x` shows `x` first. */
  lemma ShowAllCons(x: Ast, t: seq<Ast>)
    ensures ShowAll([x] + t) == Show(x) + ShowAll(t)
  {
    assert ([x] + t)[1..] == t;
  }

  /** The parser reads back the display of any tree, wherever it sits in
   *  the input, and stops right after it. */
  lemma {:induction false} ParseShow(c: seq<char>, i: nat, a: Ast)
    requires i + |Show(a)| <= |c| && c[i..i + |Show(a)|] == Show(a)
    ensures ParseOne(c, i) == Returned(Ok(a), i + |Show(a)|)
    decreases Size(a), 1
  {
    assert c[i] == Show(a)[0] == '(';
    assert c[i + 1..i + |Show(a)|] == ShowAll(a.children) + ")";
    ParseShowChildren(c, i + 1, [], a.children);
    assert [] + a.children == a.children;
  }

  /** The loop, having parsed `done`, reads back the children `rest` and
   *  the closing ')'. */
  lemma {:induction false} ParseShowChildren(c: seq<char>, j: nat, done: seq<Ast>, rest: seq<Ast>)
    requires j >= 1
    requires j + |ShowAll(rest)| + 1 <= |c|
    requires c[j..j + |ShowAll(rest)| + 1] == ShowAll(rest) + ")"
    ensures ParseChildren(c, j, done) == Returned(Ok(Ast(done + rest)), j + |ShowAll(rest)| + 1)
    decreases SizeAll(rest), 3
  {
    if |rest| == 0 {
      assert c[j] == c[j..j + 1][0] == ')';
      assert done + rest == done;
    } else {
      ParseShowNext(c, j, done, rest);
    }
  }

  /** The turn of the loop that reads back the first of `rest`. */
  lemma {:induction false} ParseShowNext(c: seq<char>, j: nat, done: seq<Ast>, rest: seq<Ast>)
    requires j >= 1 && |rest| > 0
    requires j + |ShowAll(rest)| + 1 <= |c|
    requires c[j..j + |ShowAll(rest)| + 1] == ShowAll(rest) + ")"
    ensures ParseChildren(c, j, done) == Returned(Ok(Ast(done + rest)), j + |ShowAll(rest)| + 1)
    decreases SizeAll(rest), 2
  {
    var child, more := rest[0], rest[1..];
    var sc, t2 := Show(child), ShowAll(more);
    NextPieces(c, j, ShowAll(rest), sc, t2);
    assert SizeAll(rest) == Size(child) + SizeAll(more);
    ParseShow(c, j, child);
    var j2 := j + |sc|;
    assert j2 + |t2| + 1 <= |c| && c[j2..j2 + |t2| + 1] == t2 + ")";
    ParseShowChildren(c, j2, done + [child], more);
    ChildThenRest(c, j, done, rest, j2, j2 + |t2| + 1);
  }

  /** A display followed by ')' that is made of a first tree's display and
   *  then more splits into the two, the first opening with '('. */
  lemma NextPieces(c: seq<char>, j: nat, all: string, sc: string, t2: string)
    requires all == sc + t2 && |sc| > 0 && sc[0] == '('
    requires j + |all| + 1 <= |c| && c[j..j + |all| + 1] == all + ")"
    ensures j + |sc| < |c| && c[j] == '('
    ensures c[j..j + |sc|] == sc && c[j + |sc|..j + |sc| + |t2| + 1] == t2 + ")"
  {
    SliceSplit(c, j, sc, t2);
    assert c[j] == c[j..j + |sc|][0];
  }

  /** A slice holding two texts and a ')' holds the first text where it
   *  starts and the second with the ')' after it. */
  lemma SliceSplit(c: seq<char>, i: nat, x: string, y: string)
    requires i + |x + y| + 1 <= |c| && c[i..i + |x + y| + 1] == (x + y) + ")"
    ensures c[i..i + |x|] == x && c[i + |x|..i + |x| + |y| + 1] == y + ")"
  {
    assert c[i..i + |x|] == c[i..i + |x + y| + 1][..|x|];
    assert c[i + |x|..i + |x| + |y| + 1] == c[i..i + |x + y| + 1][|x|..];
  }

  /** One turn of the loop of `one` over a child that parses. */
  lemma ChildrenStep(c: seq<char>, j: nat, acc: seq<Ast>, child: Ast, n: nat)
    requires 1 <= j < |c| && c[j] != ')'
    requires ParseOne(c, j) == Returned(Ok(child), n)
    ensures ParseChildren(c, j, acc) == ParseChildren(c, n, acc + [child])
  {
  }

  /** One turn of the loop of `one` over a child that parses, followed by
   *  the rest of the loop reading the other children. */
  lemma ChildThenRest(c: seq<char>, j: nat, acc: seq<Ast>, rest: seq<Ast>, n: nat, m: nat)
    requires 1 <= j < |c| && c[j] != ')' && |rest| > 0
    requires ParseOne(c, j) == Returned(Ok(rest[0]), n)
    requires n >= 1 && ParseChildren(c, n, acc + [rest[0]]) == Returned(Ok(Ast(acc + [rest[0]] + rest[1..])), m)
    ensures ParseChildren(c, j, acc) == Returned(Ok(Ast(acc + rest)), m)
  {
    assert acc + [rest[0]] + rest[1..] == acc + rest;
  }

  /** The size of a list that starts with `x`. */
  lemma SizeAllCons(x: Ast, t: seq<Ast>)
    ensures SizeAll([x] + t) == Size(x) + SizeAll(t)
  {
    assert ([x] + t)[1..] == t;
  }

  /** `one`, as the code runs it: the index advances in place and the
   *  children are pushed onto `v` until a ')' ends the node. */
  method One(c: seq<char>, i: nat) returns (r: Outcome)
    ensures r == ParseOne(c, i)
    decreases |c| - i
  {
    if i >= |c| {
      return Returned(Err(UnexpectedEof(i)), i);
    }
    if c[i] != '(' {
      return Returned(Err(UnknownChar(i, c[i])), i);
    }
    var idx := i + 1;
    var v := [];
    while true
      invariant i < idx
      invariant ParseChildren(c, idx, v) == ParseOne(c, i)
      decreases |c| - idx
    {
      if idx >= |c| {
        return Panicked;
      }
      if c[idx] == ')' {
        return Returned(Ok(Ast(v)), idx + 1);
      }
      var child := One(c, idx);
      match child
      case Panicked =>
        return Panicked;
      case Returned(Err(e), k) =>
        return Returned(Err(e), k);
      case Returned(Ok(a), k) =>
        v := v + [a];
        idx := k;
    }
  }

  // ---------------------------------------------------------------------
  // FromStr
  // ---------------------------------------------------------------------

  /** What `from_str` does: return a tree or an error, or panic inside `one`. */
  datatype FromStrOutcome = FromStrReturned(result: Result<Ast, ParseError>) | FromStrPanicked

  /** `FromStr for Ast`: one tree from index 0, which must use up the input;
   *  otherwise the first unused character is reported. */
  function AstFromStr(s: string): (r: FromStrOutcome)
    ensures r.FromStrPanicked? <==> ParseOne(s, 0).Panicked?
    ensures r.FromStrReturned? && r.result.Ok? ==> ParseOne(s, 0) == Returned(Ok(r.result.value), |s|)
  {
    match ParseOne(s, 0)
    case Panicked => FromStrPanicked
    case Returned(Err(e), _) => FromStrReturned(Err(e))
    case Returned(Ok(a), n) =>
      if n == |s| then FromStrReturned(Ok(a)) else FromStrReturned(Err(UnknownChar(n, s[n])))
  }

  /** `from_str`, threading the index through `one`. */
  method FromStr(s: string) returns (r: FromStrOutcome)
    ensures r == AstFromStr(s)
  {
    var o := One(s, 0);
    match o
    case Panicked => r := FromStrPanicked;
    case Returned(Err(e), _) => r := FromStrReturned(Err(e));
    case Returned(Ok(a), n) =>
      if n == |s| {
        r := FromStrReturned(Ok(a));
      } else {
        r := FromStrReturned(Err(UnknownChar(n, s[n])));
      }
  }

  /** Every tree's display parses back to it. */
  lemma FromStrShow(a: Ast)
    ensures AstFromStr(Show(a)) == FromStrReturned(Ok(a))
  {
    var s := Show(a);
    assert s[0..|s|] == s;
    ParseShow(s, 0, a);
  }

  /** Whatever parses is the display of what it parses to. */
  lemma FromStrIsShow(s: string)
    requires AstFromStr(s).FromStrReturned? && AstFromStr(s).result.Ok?
    ensures Show(AstFromStr(s).result.value) == s
  {
    ParseConsumesShow(s, 0);
    assert s[0..|s|] == s;
  }

  /** The empty input is an unexpected end at index 0; a lone ')' is an
   *  unknown character; trailing text is reported where it starts; the
   *  nested example parses as expected. */
  lemma FromStrExamples()
    ensures AstFromStr("") == FromStrReturned(Err(UnexpectedEof(0)))
    ensures AstFromStr(")") == FromStrReturned(Err(UnknownChar(0, ')')))
    ensures AstFromStr("()x") == FromStrReturned(Err(UnknownChar(2, 'x')))
    ensures AstFromStr("(()(()))") == FromStrReturned(Ok(Ast([Ast([]), Ast([Ast([])])])))
  {
    var a := Ast([Ast([]), Ast([Ast([])])]);
    assert Show(Ast([])) == "()";
    assert Show(Ast([Ast([])])) == "(())" by {
      assert [Ast([])][..0] == [];
    }
    assert ShowAll(a.children) == "()(())" by {
      assert a.children[..1] == [Ast([])];
      assert a.children[..1][..0] == [];
    }
    assert Show(a) == "(()(()))";
    FromStrShow(a);
    assert ParseOne("()x", 0) == Returned(Ok(Ast([])), 2) by {
      assert "()x"[0..2] == "()";
      ParseShow("()x", 0, Ast([]));
    }
  }

  /** An input ending inside an open node makes `one` index past the end
   *  and panic, rather than report an unexpected end. */
  lemma OpenParenPanics()
    ensures AstFromStr("(") == FromStrPanicked
    ensures AstFromStr("(()") == FromStrPanicked
  {
    assert ParseOne("(()", 1) == Returned(Ok(Ast([])), 3);
  }

  // ---------------------------------------------------------------------
  // The parser with the bounds check the error type provides for
  // ---------------------------------------------------------------------

  /** `one` with its loop checking the index before reading: running out
   *  of input inside a node is `UnexpectedEof`. */
  function ParseOneChecked(c: seq<char>, i: nat): (r: (Result<Ast, ParseError>, nat))
    ensures r.0.Ok? ==> i + 2 <= r.1 <= |c|
    decreases |c| - i, 0
  {
    if i >= |c| then (Err(UnexpectedEof(i)), i)
    else if c[i] != '(' then (Err(UnknownChar(i, c[i])), i)
    else ParseChildrenChecked(c, i + 1, [])
  }

  function ParseChildrenChecked(c: seq<char>, j: nat, acc: seq<Ast>): (r: (Result<Ast, ParseError>, nat))
    requires j >= 1
    ensures r.0.Ok? ==> j + 1 <= r.1 <= |c|
    decreases |c| - j, 1
  {
    if j >= |c| then (Err(UnexpectedEof(j)), j)
    else if c[j] == ')' then (Ok(Ast(acc)), j + 1)
    else
      match ParseOneChecked(c, j)
      case (Err(e), k) => (Err(e), k)
      case (Ok(child), k) => ParseChildrenChecked(c, k, acc + [child])
  }

  /** Wherever the parser as written does not panic, the checked one
   *  returns the same; where it panics, the checked one reports an
   *  unexpected end. */
  lemma {:induction false} CheckedAgrees(c: seq<char>, i: nat)
    ensures match ParseOne(c, i)
      case Returned(res, n) => ParseOneChecked(c, i) == (res, n)
      case Panicked => ParseOneChecked(c, i).0.Err? && ParseOneChecked(c, i).0.error.UnexpectedEof?
    decreases |c| - i, 0
  {
    if i < |c| && c[i] == '(' {
      ChildrenCheckedAgrees(c, i + 1, []);
    }
  }

  lemma {:induction false} ChildrenCheckedAgrees(c: seq<char>, j: nat, acc: seq<Ast>)
    requires j >= 1
    ensures match ParseChildren(c, j, acc)
      case Returned(res, n) => ParseChildrenChecked(c, j, acc) == (res, n)
      case Panicked => ParseChildrenChecked(c, j, acc).0.Err? && ParseChildrenChecked(c, j, acc).0.error.UnexpectedEof?
    decreases |c| - j, 1
  {
    if j < |c| && c[j] != ')' {
      CheckedAgrees(c, j);
      var o := ParseOne(c, j);
      if o.Returned? && o.result.Ok? {
        ChildrenCheckedAgrees(c, o.next, acc + [o.result.value]);
      }
    }
  }

  /** `from_str` on the checked parser: it never panics, reads back every
   *  display, and reports an unexpected end for "(". */
  function AstFromStrChecked(s: string): (r: Result<Ast, ParseError>)
  {
    match ParseOneChecked(s, 0)
    case (Err(e), _) => Err(e)
    case (Ok(a), n) => if n == |s| then Ok(a) else Err(UnknownChar(n, s[n]))
  }

  lemma CheckedFromStr(a: Ast)
    ensures AstFromStrChecked(Show(a)) == Ok(a)
    ensures AstFromStrChecked("(") == Err(UnexpectedEof(1))
    ensures AstFromStrChecked("") == Err(UnexpectedEof(0))
  {
    FromStrShow(a);
    CheckedAgrees(Show(a), 0);
  }

  // ---------------------------------------------------------------------
  // Depth
  // ---------------------------------------------------------------------

  /** The largest depth among some trees, 0 for none. */
  function MaxDepth(s: seq<Ast>): (r: nat)
    ensures forall k :: 0 <= k < |s| ==> Depth(s[k]) <= r
    ensures |s| > 0 ==> exists k :: 0 <= k < |s| && Depth(s[k]) == r
  {
    if |s| == 0 then 0
    else
      var m := MaxDepth(s[..|s| - 1]);
      var d := Depth(s[|s| - 1]);
      assert forall k :: 0 <= k < |s| - 1 ==> s[k] == s[..|s| - 1][k];
      if d > m then d else m
  }

  /** `depth`: 0 for a leaf, else one more than the deepest child. Every
   *  child is shallower than its parent. */
  function Depth(a: Ast): (r: nat)
    ensures r == 0 <==> |a.children| == 0
    ensures forall k :: 0 <= k < |a.children| ==> Depth(a.children[k]) < r
  {
    if |a.children| == 0 then 0 else 1 + MaxDepth(a.children)
  }

  /** A leaf has depth 0 and every child is strictly shallower than its
   *  parent, which is exactly one deeper than its deepest child. */
  lemma DepthOfChildren(a: Ast)
    ensures Depth(a) == 0 <==> |a.children| == 0
    ensures forall k :: 0 <= k < |a.children| ==> Depth(a.children[k]) < Depth(a)
    ensures |a.children| > 0 ==> exists k :: 0 <= k < |a.children| && Depth(a.children[k]) + 1 == Depth(a)
  {
  }

  /** A tree is shallower than it has nodes. */
  lemma {:induction false} DepthBelowSize(a: Ast)
    ensures Depth(a) < Size(a)
    decreases a
  {
    if |a.children| > 0 {
      var k :| 0 <= k < |a.children| && Depth(a.children[k]) + 1 == Depth(a);
      DepthBelowSize(a.children[k]);
      SizeAllMember(a.children, k);
    }
  }

  /** Each tree of a list is no bigger than the list. */
  lemma {:induction false} SizeAllMember(s: seq<Ast>, k: nat)
    requires k < |s|
    ensures Size(s[k]) <= SizeAll(s)
    decreases |s|
  {
    if k > 0 {
      SizeAllMember(s[1..], k - 1);
      assert s[1..][k - 1] == s[k];
    }
  }

  // ---------------------------------------------------------------------
  // The depth provider
  // ---------------------------------------------------------------------

  /** The vendor identifier of the depth product. */
  const DEPTH_ID: Identifier := Identifier(["edu", "umn", "cs", "melt", "monto_rs", "balanced_parens"], "depth")

  /** The name `DepthProvider` gives its product,
   *  edu.umn.cs.melt.monto_rs.balanced_parens.depth, as the display of its
   *  pieces. */
  const DEPTH_PRODUCT: string := IdentifierString(DEPTH_ID)

  /** Every piece of `DEPTH_ID` is a segment of the strict grammar. */
  lemma DepthIdSegments()
    ensures AllSegments(DEPTH_ID.namespace) && IsSegment(DEPTH_ID.name)
  {
    assert IsSegment("edu") && IsSegment("umn") && IsSegment("cs") && IsSegment("melt");
    assert IsSegment("monto_rs");
    assert IsSegment("balanced_parens");
    assert IsSegment("depth");
  }

  /** The depth product's name is a strict identifier, so it parses to
   *  `DEPTH_ID` and displays back to itself. */
  lemma DepthNameParses()
    ensures ProductNameString(OtherProduct(DEPTH_ID)) == DEPTH_PRODUCT
    ensures ProductNameFromStr(DEPTH_PRODUCT) == Ok(OtherProduct(DEPTH_ID))
  {
    DepthIdSegments();
    ProductNameDisplayRoundTrip(OtherProduct(DEPTH_ID));
  }

  /** `DepthProvider::descriptor`: the product name parses (so the `unwrap`
   *  succeeds) to the vendor identifier, in the "balanced-parens" language. */
  function DepthDescriptor(): (r: ProductDescriptor)
    ensures r.name == OtherProduct(DEPTH_ID)
    ensures ProductNameString(r.name) == DEPTH_PRODUCT
    ensures r.language == Other("balanced-parens")
  {
    DepthNameParses();
    match ProductNameFromStr(DEPTH_PRODUCT)
    case Ok(name) => ProductDescriptor(name, Other("balanced-parens"))
    case Err(_) => assert false; ProductDescriptor(Source, Other("balanced-parens"))
  }
}
