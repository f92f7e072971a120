/**
 Configuration trees as text: printing them, and reading them back word by word.
 */
module Configuration {
  datatype Node = Root(nodes: seq<Named>) | Int(value: int) | String(text: string)

  datatype Named = Named(name: string, node: Node)

  // What is read, with the rest of the input; or a failed read or assertion.
  datatype Loaded<+T> = Ok(value: T, rest: string) | Err

  predicate IsSpace(c: char) {
    c == ' ' || c == '\n' || c == '\t' || c == '\r' || c == '\U{0B}' || c == '\U{0C}'
  }

  // ---------- printing ----------

  function Tag(n: Node): string {
    match n
    case Root(_) => "Root"
    case Int(_) => "Int"
    case String(_) => "String"
  }

  function Digit(d: nat): (c: char)
    requires d < 10
    ensures !IsSpace(c) && '0' <= c <= '9' && c as int - '0' as int == d
  {
    ('0' as int + d) as char
  }

  function Digits(n: nat): (s: string)
    ensures s != []
  {
    if n < 10 then [Digit(n)] else Digits(n / 10) + [Digit(n % 10)]
  }

  function IntText(i: int): string {
    if i < 0 then "-" + Digits(-i) else Digits(i)
  }

  function WriteTo(n: Node): string
    decreases n, 1, 0
  {
    match n
    case Root(nodes) => "Begin" + "\n" + WriteNodes(n, 0) + "End" + "\n"
    case Int(i) => IntText(i) + "\n"
    case String(s) => s + "\n"
  }

  // The sub-nodes of n from the i-th on.
  function WriteNodes(n: Node, i: nat): string
    requires n.Root? && i <= |n.nodes|
    decreases n, 0, |n.nodes| - i
  {
    if i == |n.nodes| then ""
    else Tag(n.nodes[i].node) + " " + n.nodes[i].name + " " + WriteTo(n.nodes[i].node) + WriteNodes(n, i + 1)
  }

  // ---------- reading ----------

  function SkipSpace(s: string): (r: string)
    ensures |r| <= |s|
  {
    if s != [] && IsSpace(s[0]) then SkipSpace(s[1..]) else s
  }

  // The characters up to the next space.
  function Word(s: string): (w: string)
    ensures |w| <= |s| && s[..|w|] == w
  {
    if s == [] || IsSpace(s[0]) then [] else [s[0]] + Word(s[1..])
  }

  // The next word; a read at the end of the input fails.
  function ReadWord(s: string): (r: Loaded<string>)
    ensures r.Ok? ==> r.value != [] && |r.rest| < |s|
  {
    var t := SkipSpace(s);
    var w := Word(t);
    if w == [] then Err else Ok(w, t[|w|..])
  }

  function IsDigit(c: char): bool {
    '0' <= c <= '9'
  }

  function DigitRun(s: string): (w: string)
    ensures |w| <= |s| && s[..|w|] == w && forall i :: 0 <= i < |w| ==> IsDigit(w[i])
  {
    if s == [] || !IsDigit(s[0]) then [] else [s[0]] + DigitRun(s[1..])
  }

  function Number(w: string): (n: int)
    requires forall i :: 0 <= i < |w| ==> IsDigit(w[i])
    ensures n >= 0
  {
    if w == [] then 0
    else
      assert IsDigit(w[|w| - 1]);
      10 * Number(w[..|w| - 1]) + (w[|w| - 1] as int - '0' as int)
  }

  // Digits, at the start of the input.
  function ReadDigits(u: string): (r: Loaded<int>)
    ensures r.Ok? ==> |r.rest| < |u|
  {
    var w := DigitRun(u);
    if w == [] then Err else Ok(Number(w), u[|w|..])
  }

  function ReadInt(s: string): (r: Loaded<int>)
    ensures r.Ok? ==> |r.rest| < |s|
  {
    var t := SkipSpace(s);
    if t != [] && t[0] == '-' then
      var r := ReadDigits(t[1..]);
      if r.Err? then Err else Ok(-r.value, r.rest)
    else ReadDigits(if t != [] && t[0] == '+' then t[1..] else t)
  }

  // A node of the kind that the tag names.
  function LoadFrom(tag: string, s: string): (r: Loaded<Node>)
    ensures r.Ok? ==> |r.rest| < |s|
    decreases |s|, 0
  {
    if tag == "Int" then
      var r := ReadInt(s);
      if r.Err? then Err else Ok(Int(r.value), r.rest)
    else if tag == "String" then
      var r := ReadWord(s);
      if r.Err? then Err else Ok(String(r.value), r.rest)
    else if tag == "Root" then
      var marker := ReadWord(s);
      if marker.Err? || marker.value != "Begin" then Err else LoadNodes(marker.rest, [])
    else Err
  }

  // Sub-nodes up to the end marker.
  function LoadNodes(s: string, nodes: seq<Named>): (r: Loaded<Node>)
    ensures r.Ok? ==> |r.rest| < |s|
    decreases |s|, 1
  {
    var tag := ReadWord(s);
    if tag.Err? then Err
    else if tag.value == "End" then Ok(Root(nodes), tag.rest)
    else
      var name := ReadWord(tag.rest);
      if name.Err? then Err
      else
        var n := LoadFrom(tag.value, name.rest);
        if n.Err? then Err else LoadNodes(n.rest, nodes + [Named(name.value, n.value)])
  }

  /** The reader as the program has it, with its loop over the sub-nodes. */
  method Load(tag: string, input: string) returns (r: Loaded<Node>)
    ensures r == LoadFrom(tag, input)
    decreases |input|
  {
    if tag == "Root" {
      var marker := ReadWord(input);
      if marker.Err? || marker.value != "Begin" {
        return Err;
      }
      var s, nodes := marker.rest, [];
      while true
        invariant |s| < |input| && LoadFrom(tag, input) == LoadNodes(s, nodes)
        decreases |s|
      {
        var kind := ReadWord(s);
        if kind.Err? {
          return Err;
        }
        if kind.value == "End" {
          return Ok(Root(nodes), kind.rest);
        }
        var name := ReadWord(kind.rest);
        if name.Err? {
          return Err;
        }
        var n := Load(kind.value, name.rest);
        if n.Err? {
          return Err;
        }
        nodes := nodes + [Named(name.value, n.value)];
        s := n.rest;
      }
    } else {
      r := LoadFrom(tag, input);
    }
  }

  // ---------- the round trip ----------

  ghost predicate IsWord(s: string) {
    s != [] && forall i :: 0 <= i < |s| ==> !IsSpace(s[i])
  }

  // Names and strings are nonempty and have no spaces in them.
  ghost predicate Printable(n: Node)
    decreases n
  {
    match n
    case Root(nodes) => forall i :: 0 <= i < |nodes| ==> IsWord(nodes[i].name) && Printable(nodes[i].node)
    case Int(_) => true
    case String(s) => IsWord(s)
  }

  lemma {:induction false} WordReads(w: string, c: char, rest: string)
    requires (forall i :: 0 <= i < |w| ==> !IsSpace(w[i])) && IsSpace(c)
    ensures Word(w + [c] + rest) == w
  {
    if w == [] {
      assert w + [c] + rest == [c] + rest;
    } else {
      assert (w + [c] + rest)[1..] == w[1..] + [c] + rest;
      WordReads(w[1..], c, rest);
    }
  }

  ghost predicate AllSpace(s: string) {
    forall i :: 0 <= i < |s| ==> IsSpace(s[i])
  }

  /** Space is skipped, all of it and nothing else. */
  lemma {:induction false} SkipsExactly(s: string)
    ensures var r := SkipSpace(s);
      && r == s[|s| - |r|..] && AllSpace(s[..|s| - |r|]) && (r != [] ==> !IsSpace(r[0]))
  {
    if s != [] && IsSpace(s[0]) {
      SkipsExactly(s[1..]);
      var r := SkipSpace(s);
      assert s[..|s| - |r|] == [s[0]] + s[1..][..|s| - 1 - |r|];
    }
  }

  /** A word is read after any number of spaces, and up to the next. */
  lemma {:induction false} ReadsWordAfter(space: string, w: string, c: char, rest: string)
    requires AllSpace(space) && IsWord(w) && IsSpace(c)
    ensures ReadWord(space + (w + [c] + rest)) == Ok(w, [c] + rest)
  {
    var t := w + [c] + rest;
    if space == [] {
      assert space + t == t;
      ReadsWord(w, c, rest);
    } else {
      assert (space + t)[1..] == space[1..] + t;
      assert AllSpace(space[1..]);
      ReadsWordAfter(space[1..], w, c, rest);
    }
  }

  // What a run of digits is worth, each digit by its place.
  ghost function Worth(w: string): int {
    if w == [] then 0 else (w[0] as int - '0' as int) * PowerOfTen(|w| - 1) + Worth(w[1..])
  }

  ghost function PowerOfTen(n: nat): nat {
    if n == 0 then 1 else 10 * PowerOfTen(n - 1)
  }

  /** Numbers are read as decimals. */
  lemma {:induction false} ReadsDecimal(w: string)
    requires forall i :: 0 <= i < |w| ==> IsDigit(w[i])
    ensures Number(w) == Worth(w)
  {
    if w != [] {
      ReadsDecimal(w[..|w| - 1]);
      LastDigit(w);
    }
  }

  lemma {:induction false} LastDigit(w: string)
    requires w != []
    ensures Worth(w) == 10 * Worth(w[..|w| - 1]) + (w[|w| - 1] as int - '0' as int)
  {
    var n := |w| - 1;
    if n > 0 {
      LastDigit(w[1..]);
      assert w[1..][..n - 1] == w[..n][1..];
    }
  }

  // What the program writes for a tree with a string, a number or a tree in it.
  lemma PrintedString()
    ensures WriteTo(Root([Named("s", String("x"))])) == "Begin\nString s x\nEnd\n"
  {
    var n := Root([Named("s", String("x"))]);
    assert WriteNodes(n, 0) == "String s x\n";
  }

  lemma PrintedNumber()
    ensures WriteTo(Root([Named("n", Int(-7))])) == "Begin\nInt n -7\nEnd\n"
  {
    var n := Root([Named("n", Int(-7))]);
    assert WriteNodes(n, 0) == "Int n -7\n";
  }

  lemma PrintedEmpty()
    ensures WriteTo(Root([])) == "Begin\nEnd\n"
  {
    assert WriteNodes(Root([]), 0) == "";
  }

  lemma PrintedSubTree(empty: Node, n: Node)
    requires WriteTo(empty) == "Begin\nEnd\n" && empty.Root? && n == Root([Named("r", empty)])
    ensures WriteNodes(n, 0) == "Root r Begin\nEnd\n"
  {
  }

  lemma PrintedTree()
    ensures WriteTo(Root([Named("r", Root([]))])) == "Begin\nRoot r Begin\nEnd\nEnd\n"
  {
    PrintedEmpty();
    PrintedSubTree(Root([]), Root([Named("r", Root([]))]));
  }

  // A word is read after any one space, and stops in front of the next.
  lemma ReadsWord(w: string, c: char, rest: string)
    requires IsWord(w) && IsSpace(c)
    ensures ReadWord(w + [c] + rest) == Ok(w, [c] + rest)
    ensures forall d :: IsSpace(d) ==> ReadWord([d] + (w + [c] + rest)) == Ok(w, [c] + rest)
  {
    var s := w + [c] + rest;
    WordReads(w, c, rest);
    assert s[0] == w[0] && SkipSpace(s) == s;
    assert s[|w|..] == [c] + rest;
    forall d | IsSpace(d)
      ensures ReadWord([d] + s) == Ok(w, [c] + rest)
    {
      assert ([d] + s)[1..] == s;
      assert SkipSpace([d] + s) == s;
    }
  }

  lemma {:induction false} DigitsRead(n: nat, rest: string)
    requires rest == [] || !IsDigit(rest[0])
    ensures forall i :: 0 <= i < |Digits(n)| ==> IsDigit(Digits(n)[i])
    ensures Number(Digits(n)) == n
  {
    if n >= 10 {
      DigitsRead(n / 10, rest);
      assert Digits(n)[..|Digits(n)| - 1] == Digits(n / 10);
    }
  }

  lemma {:induction false} RunReads(w: string, rest: string)
    requires (forall i :: 0 <= i < |w| ==> IsDigit(w[i])) && (rest == [] || !IsDigit(rest[0]))
    ensures DigitRun(w + rest) == w
  {
    if w == [] {
      assert w + rest == rest;
    } else {
      assert (w + rest)[1..] == w[1..] + rest;
      RunReads(w[1..], rest);
    }
  }

  lemma ReadsDigits(n: nat, c: char, rest: string)
    requires IsSpace(c)
    ensures ReadDigits(Digits(n) + ([c] + rest)) == Ok(n, [c] + rest)
    ensures IsDigit((Digits(n) + ([c] + rest))[0])
  {
    DigitsRead(n, [c] + rest);
    RunReads(Digits(n), [c] + rest);
    assert (Digits(n) + ([c] + rest))[|Digits(n)|..] == [c] + rest;
  }

  lemma SkipsOne(t: string)
    requires t != [] && !IsSpace(t[0])
    ensures SkipSpace([' '] + t) == t
  {
    assert ([' '] + t)[1..] == t;
    assert SkipSpace(t) == t;
  }

  lemma ReadsNegative(n: int, c: char, rest: string)
    requires n >= 0 && IsSpace(c)
    ensures ReadInt([' '] + (['-'] + (Digits(n) + ([c] + rest)))) == Ok(-n, [c] + rest)
  {
    var u := Digits(n) + ([c] + rest);
    ReadsDigits(n, c, rest);
    SkipsOne(['-'] + u);
    assert (['-'] + u)[1..] == u;
  }

  lemma ReadsPositive(n: nat, c: char, rest: string)
    requires IsSpace(c)
    ensures ReadInt([' '] + (Digits(n) + ([c] + rest))) == Ok(n, [c] + rest)
  {
    ReadsDigits(n, c, rest);
    SkipsOne(Digits(n) + ([c] + rest));
  }

  lemma ReadsInt(i: int, c: char, rest: string)
    requires IsSpace(c)
    ensures ReadInt([' '] + (IntText(i) + ([c] + rest))) == Ok(i, [c] + rest)
  {
    if i < 0 {
      ReadsNegative(-i, c, rest);
      assert IntText(i) + ([c] + rest) == ['-'] + (Digits(-i) + ([c] + rest));
    } else {
      ReadsPositive(i, c, rest);
    }
  }

  // ---------- whole trees ----------

  /** What is printed is read back, whatever follows it, and whatever the names and strings are: they
      may be the markers or the tags themselves. The reader stops in front of the last line end. */
  lemma {:induction false} RoundTrip(n: Node, rest: string)
    requires Printable(n)
    ensures LoadFrom(Tag(n), [' '] + (WriteTo(n) + rest)) == Ok(n, ['\n'] + rest)
    decreases n, 1, 0
  {
    match n
    case Root(nodes) =>
      var tail := WriteNodes(n, 0) + ("End" + "\n" + rest);
      assert WriteTo(n) + rest == "Begin" + ['\n'] + tail;
      ReadsWord("Begin", '\n', tail);
      NodesRoundTrip(n, 0, [], rest);
    case Int(i) =>
      assert WriteTo(n) + rest == IntText(i) + (['\n'] + rest);
      ReadsInt(i, '\n', rest);
    case String(s) =>
      assert WriteTo(n) + rest == s + ['\n'] + rest;
      ReadsWord(s, '\n', rest);
  }

  // Readers skip space in front of what they read.
  lemma SpaceIsSkipped(tag: string, s: string)
    ensures LoadFrom(tag, [' '] + s) == LoadFrom(tag, s)
  {
    assert ([' '] + s)[1..] == s;
  }

  /** So is a file that starts with what is printed. */
  lemma FileRoundTrip(n: Node, rest: string)
    requires Printable(n)
    ensures LoadFrom(Tag(n), WriteTo(n) + rest) == Ok(n, ['\n'] + rest)
  {
    RoundTrip(n, rest);
    SpaceIsSkipped(Tag(n), WriteTo(n) + rest);
  }

  lemma {:induction false} NodesRoundTrip(n: Node, i: nat, done: seq<Named>, rest: string)
    requires n.Root? && i <= |n.nodes| && Printable(n) && done == n.nodes[..i]
    ensures LoadNodes(['\n'] + (WriteNodes(n, i) + ("End" + "\n" + rest)), done) == Ok(n, ['\n'] + rest)
    decreases n, 0, |n.nodes| - i
  {
    var tail := "End" + "\n" + rest;
    if i == |n.nodes| {
      assert WriteNodes(n, i) + tail == "End" + ['\n'] + rest && done == n.nodes;
      ReadsWord("End", '\n', rest);
    } else {
      var x := n.nodes[i];
      var more := WriteNodes(n, i + 1) + tail;
      NodesText(n, i, tail);
      RoundTrip(x.node, more);
      TagIsWord(x.node);
      ReadsNamed(Tag(x.node), x, WriteTo(x.node) + more, more, done);
      OneMore(n.nodes, i);
      NodesRoundTrip(n, i + 1, done + [x], rest);
    }
  }

  lemma OneMore(nodes: seq<Named>, i: nat)
    requires i < |nodes|
    ensures nodes[..i] + [nodes[i]] == nodes[..i + 1]
  {
  }

  // The reader gets past one sub-node.
  lemma ReadsNamed(tag: string, x: Named, body: string, more: string, done: seq<Named>)
    requires IsWord(tag) && tag != "End" && IsWord(x.name)
    requires LoadFrom(tag, [' '] + body) == Ok(x.node, ['\n'] + more)
    ensures LoadNodes(['\n'] + (tag + [' '] + (x.name + [' '] + body)), done) == LoadNodes(['\n'] + more, done + [x])
  {
    ReadsWord(tag, ' ', x.name + [' '] + body);
    ReadsWord(x.name, ' ', body);
  }

  lemma TagIsWord(n: Node)
    ensures IsWord(Tag(n)) && Tag(n) != "End"
  {
    assert Tag(n)[0] != 'E';
  }

  // How the text of the sub-nodes falls into words.
  lemma NodesText(n: Node, i: nat, tail: string)
    requires n.Root? && i < |n.nodes|
    ensures var x := n.nodes[i];
      WriteNodes(n, i) + tail == Tag(x.node) + [' '] + (x.name + [' '] + (WriteTo(x.node) + (WriteNodes(n, i + 1) + tail)))
  {
    var x := n.nodes[i];
    Regroup(Tag(x.node), x.name, WriteTo(x.node), WriteNodes(n, i + 1), tail);
  }

  lemma Regroup(a: string, b: string, c: string, d: string, e: string)
    ensures a + " " + b + " " + c + d + e == a + [' '] + (b + [' '] + (c + (d + e)))
  {
  }
}
