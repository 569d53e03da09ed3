/** The parser of nested blocks in project descriptions (include/cproj.h). */
module ProjectBlocks {
  import opened Wrappers

  /** A statement, or a block with a registered keyword and a name. */
  datatype Node = Statement(sentence: string) | Block(key: string, name: string, childs: seq<Node>)

  /** What the source throws. */
  datatype Error = IllegalName | UnknownKey | OutOfRange

  datatype Result = Blocks(nodes: seq<Node>) | Thrown(error: Error)

  // ----- string searches --------------------------------------------------

  function Find(s: string, c: char): (r: Option<nat>)
    ensures r.Some? ==> r.value < |s| && s[r.value] == c && forall j :: 0 <= j < r.value ==> s[j] != c
    ensures r.None? ==> forall j :: 0 <= j < |s| ==> s[j] != c
  {
    if s == "" then None
    else if s[0] == c then Some(0)
    else match Find(s[1..], c)
      case Some(i) =>
        assert forall j :: 0 < j < |s| ==> s[j] == s[1..][j - 1];
        Some(i + 1)
      case None =>
        assert forall j :: 0 < j < |s| ==> s[j] == s[1..][j - 1];
        None
  }

  function RFind(s: string, c: char): (r: Option<nat>)
    ensures r.Some? ==> r.value < |s| && s[r.value] == c
  {
    if s == "" then None
    else if s[|s| - 1] == c then Some(|s| - 1)
    else RFind(s[..|s| - 1], c)
  }

  predicate Contains(s: string, key: string)
  {
    if key <= s then true else s != "" && Contains(s[1..], key)
  }

  predicate Legal(c: char)
  {
    '0' <= c <= '9' || 'a' <= c <= 'z' || 'A' <= c <= 'Z' || c == '_'
  }

  /** The check of names, whose answer is true for legal ones. */
  method IfNameIllegal(str: string) returns (ok: bool)
    ensures ok <==> forall c <- str :: Legal(c)
  {
    for i := 0 to |str|
      invariant forall c <- str[..i] :: Legal(c)
    {
      if !Legal(str[i]) {
        return false;
      }
      assert str[..i + 1] == str[..i] + [str[i]];
    }
    assert str[..|str|] == str;
    return true;
  }

  /** Where the walk over nested braces stops: behind the one that closes the first level. */
  function Walk(s: string, i: nat, depth: int): (end: nat)
    requires i <= |s|
    ensures i <= end <= |s|
    decreases |s| - i
  {
    if i == |s| then i
    else if s[i] == '{' then Walk(s, i + 1, depth + 1)
    else if s[i] == '}' then (if depth == 2 then i + 1 else Walk(s, i + 1, depth - 1))
    else Walk(s, i + 1, depth)
  }

  /** A part of a string; a negative count takes all that is left. */
  function Substr(s: string, at: nat, count: int): Option<string>
  {
    if at > |s| then None
    else if count < 0 || at + count > |s| then Some(s[at..])
    else Some(s[at..at + count])
  }

  // ----- reading ----------------------------------------------------------

  /** The first registered key that occurs in a head. */
  function KeyOf(head: string, keys: seq<string>): Option<string>
  {
    if keys == [] then None
    else if Contains(head, keys[0]) then Some(keys[0])
    else KeyOf(head, keys[1..])
  }

  datatype Cut = Cut(text: string, brace: Option<nat>, next: nat)

  /** The statement or block at the start of a text, and where the text goes on. */
  function FirstPiece(t: string, semicolon: nat): (p: Cut)
    requires semicolon < |t|
    ensures |p.text| <= |t| && p.next >= 1 && (p.brace.Some? ==> p.brace.value < |t|)
  {
    var brace := Find(t[..semicolon], '{');
    if brace.None? then Cut(t[..semicolon], None, semicolon + 1)
    else
      var text := t[..Walk(t, 0, 1)];
      var end := RFind(text, '}');
      Cut(text, brace, if end.Some? then end.value + 2 else 1)
  }

  /** The nodes of a text. A block's name is what follows as many characters as its key has. */
  function Read(t: string, keys: seq<string>): Result
    decreases |t|
  {
    var semicolon := Find(t, ';');
    if semicolon.None? then Blocks([])
    else
      var p := FirstPiece(t, semicolon.value);
      var node := if p.brace.None? then Blocks([Statement(p.text)]) else ReadBlock(p.text, p.brace.value, p.next - 1, |t|, keys);
      if node.Thrown? then node
      else if p.next > |t| then Thrown(OutOfRange)
      else
        var rest := Read(t[p.next..], keys);
        if rest.Thrown? then rest else Blocks(node.nodes + rest.nodes)
  }

  /** A block from its text: the brace opens it, end is behind its last closing brace. */
  function ReadBlock(text: string, brace: nat, end: nat, bound: nat, keys: seq<string>): Result
    requires |text| <= bound && brace < bound
    decreases bound, 0
  {
    var head := Substr(text, 0, brace).value;
    var key := KeyOf(head, keys);
    if key.None? then Thrown(UnknownKey)
    else
      var name := Substr(text, |key.value|, brace - |key.value|);
      if name.None? then Thrown(OutOfRange)
      else if !AllLegal(name.value) then Thrown(IllegalName)
      else if key.value == "" then Thrown(UnknownKey)
      else
        var inside := Substr(text, brace + 1, end - brace - 2);
        if inside.None? then Thrown(OutOfRange)
        else
          var childs := Read(inside.value, keys);
          if childs.Thrown? then childs
          else Blocks([Block(Substr(text, 0, |key.value|).value, name.value, childs.nodes)])
  }

  predicate AllLegal(s: string)
  {
    forall c <- s :: Legal(c)
  }

  // ----- the written form -------------------------------------------------

  function Written(nodes: seq<Node>): string
  {
    if nodes == [] then "" else WrittenNode(nodes[0]) + Written(nodes[1..])
  }

  function WrittenNode(node: Node): string
  {
    match node
    case Statement(sentence) => sentence + ";"
    case Block(key, name, childs) => key + name + "{" + Written(childs) + "};"
  }

  predicate Plain(s: string)
  {
    ';' !in s && '{' !in s && '}' !in s
  }

  /** Statements and heads without separators, and in every head the block's own key is the
      first registered one to occur. */
  predicate WellFormed(nodes: seq<Node>, keys: seq<string>)
  {
    forall node <- nodes :: WellFormedNode(node, keys)
  }

  predicate WellFormedNode(node: Node, keys: seq<string>)
  {
    match node
    case Statement(sentence) => Plain(sentence)
    case Block(key, name, childs) =>
      key != "" && Plain(key) && AllLegal(name) && KeyOf(key + name, keys) == Some(key) && WellFormed(childs, keys)
  }

  lemma FindAt(s: string, c: char, i: nat)
    requires i < |s| && s[i] == c && forall j :: 0 <= j < i ==> s[j] != c
    ensures Find(s, c) == Some(i)
  {
  }

  lemma {:induction false} WalkPlain(s: string, i: nat, end: nat, depth: int)
    requires i <= end <= |s| && Plain(s[i..end])
    ensures Walk(s, i, depth) == Walk(s, end, depth)
    decreases end - i
  {
    if i < end {
      assert s[i..end][0] == s[i];
      assert forall c <- s[i + 1..end] :: c in s[i..end] by {
        assert s[i + 1..end] == s[i..end][1..];
      }
      WalkPlain(s, i + 1, end, depth);
    }
  }

  lemma LegalIsPlain(name: string)
    requires AllLegal(name)
    ensures Plain(name)
  {
  }

  /** The walk passes whole nodes without leaving the level it is on. */
  lemma {:induction false} WalkNodes(s: string, i: nat, nodes: seq<Node>, keys: seq<string>, depth: int)
    requires WellFormed(nodes, keys) && depth >= 2
    requires i + |Written(nodes)| <= |s| && s[i..i + |Written(nodes)|] == Written(nodes)
    ensures Walk(s, i, depth) == Walk(s, i + |Written(nodes)|, depth)
    decreases nodes
  {
    hide WrittenNode, WellFormedNode, Walk;
    if nodes != [] {
      var first, rest := WrittenNode(nodes[0]), Written(nodes[1..]);
      assert s[i..i + |first|] == (first + rest)[..|first|];
      assert s[i + |first|..i + |first| + |rest|] == (first + rest)[|first|..];
      assert nodes[0] in nodes;
      assert forall n <- nodes[1..] :: n in nodes;
      WalkNode(s, i, nodes[0], keys, depth);
      WalkNodes(s, i + |first|, nodes[1..], keys, depth);
    }
  }

  lemma {:induction false} WalkNode(s: string, i: nat, node: Node, keys: seq<string>, depth: int)
    requires WellFormedNode(node, keys) && depth >= 2
    requires i + |WrittenNode(node)| <= |s| && s[i..i + |WrittenNode(node)|] == WrittenNode(node)
    ensures Walk(s, i, depth) == Walk(s, i + |WrittenNode(node)|, depth)
    decreases node
  {
    hide Written, Walk, KeyOf, WellFormed;
    var w := WrittenNode(node);
    match node
    case Statement(sentence) =>
      assert s[i..i + |w|][..|sentence|] == s[i..i + |sentence|] && w[..|sentence|] == sentence;
      WalkPlain(s, i, i + |sentence|, depth);
      InSlice(s, i, w, |sentence|);
      WalkOne(s, i + |sentence|, depth);
    case Block(key, name, childs) =>
      var head, inner := key + name, Written(childs);
      LegalIsPlain(name);
      assert Plain(head);
      BlockParts(s, i, key, name, inner);
      WalkPlain(s, i, i + |head|, depth);
      WalkOne(s, i + |head|, depth);
      WalkNodes(s, i + |head| + 1, childs, keys, depth + 1);
      WalkOne(s, i + |head| + 1 + |inner|, depth + 1);
      WalkOne(s, i + |head| + 2 + |inner|, depth);
  }

  lemma WalkOne(s: string, i: nat, depth: int)
    requires i < |s|
    ensures s[i] == '{' ==> Walk(s, i, depth) == Walk(s, i + 1, depth + 1)
    ensures s[i] == '}' && depth != 2 ==> Walk(s, i, depth) == Walk(s, i + 1, depth - 1)
    ensures s[i] == ';' ==> Walk(s, i, depth) == Walk(s, i + 1, depth)
  {
  }

  lemma BlockParts(s: string, i: nat, key: string, name: string, inner: string)
    requires var w := key + name + "{" + inner + "};"; i + |w| <= |s| && s[i..i + |w|] == w
    ensures var h := |key + name|;
            && s[i..i + h] == key + name && s[i + h] == '{' && s[i + h + 1..i + h + 1 + |inner|] == inner
            && s[i + h + 1 + |inner|] == '}' && s[i + h + 2 + |inner|] == ';'
  {
    var w, h := key + name + "{" + inner + "};", |key + name|;
    assert s[i..i + |w|][..h] == s[i..i + h] && w[..h] == key + name;
    InSlice(s, i, w, h);
    InSlice(s, i, w, h + 1 + |inner|);
    InSlice(s, i, w, h + 2 + |inner|);
    forall k | 0 <= k < |inner|
      ensures s[i + h + 1 + k] == inner[k]
    {
      InSlice(s, i, w, h + 1 + k);
    }
  }

  lemma InSlice(s: string, i: nat, w: string, k: nat)
    requires i + |w| <= |s| && s[i..i + |w|] == w && k < |w|
    ensures s[i + k] == w[k]
  {
    assert s[i..i + |w|][k] == s[i + k];
  }

  lemma StatementFirst(sentence: string, rest: string)
    requires Plain(sentence)
    ensures var t := sentence + ";" + rest;
            Find(t, ';') == Some(|sentence|) && FirstPiece(t, |sentence|) == Cut(sentence, None, |sentence| + 1)
  {
    hide Find;
    var t := sentence + ";" + rest;
    assert t[..|sentence|] == sentence;
    assert forall j :: 0 <= j < |sentence| ==> t[j] == sentence[j] && sentence[j] in sentence;
    FindAt(t, ';', |sentence|);
    NotThere(sentence, '{');
  }

  lemma BlockFirst(key: string, name: string, childs: seq<Node>, keys: seq<string>, rest: string)
    requires WellFormedNode(Block(key, name, childs), keys)
    ensures var head, inner := key + name, Written(childs);
            var text := head + "{" + inner + "}";
            var t := text + ";" + rest;
            && Find(t, ';').Some? && FirstPiece(t, Find(t, ';').value) == Cut(text, Some(|head|), |text| + 1)
  {
    hide Find, Walk, RFind, Written, KeyOf, WellFormed;
    var head, inner := key + name, Written(childs);
    var text := head + "{" + inner + "}";
    var t := text + ";" + rest;
    assert t == head + "{" + inner + "};" + rest;
    LegalIsPlain(name);
    assert Plain(head);
    BlockFinds(head, inner, rest);
    BlockWalks(key, name, childs, keys, rest);
    var semicolon := Find(t, ';').value;
    assert t[..|text|] == text;
    LastBrace(head + "{" + inner);
  }

  lemma {:induction false} NotThere(s: string, c: char)
    requires c !in s
    ensures Find(s, c) == None
  {
    if s != "" {
      assert s == [s[0]] + s[1..];
      NotThere(s[1..], c);
    }
  }

  lemma LastBrace(s: string)
    ensures RFind(s + "}", '}') == Some(|s|)
  {
  }

  /** The first semicolon comes behind the brace that opens the block. */
  lemma BlockFinds(head: string, inner: string, rest: string)
    requires Plain(head)
    ensures var t := head + "{" + inner + "};" + rest;
            Find(t, ';').Some? && Find(t[..Find(t, ';').value], '{') == Some(|head|)
  {
    hide Find;
    var t := head + "{" + inner + "};" + rest;
    assert t[|head| + |inner| + 2] == ';';
    assert forall j :: 0 <= j < |head| ==> t[j] == head[j] && head[j] in head;
    var semicolon := Find(t, ';').value;
    FindAt(t[..semicolon], '{', |head|);
  }

  lemma BlockWalks(key: string, name: string, childs: seq<Node>, keys: seq<string>, rest: string)
    requires WellFormedNode(Block(key, name, childs), keys)
    ensures var head, inner := key + name, Written(childs);
            var text := head + "{" + inner + "}";
            Walk(text + ";" + rest, 0, 1) == |text|
  {
    hide Written, KeyOf, WellFormed;
    var head, inner := key + name, Written(childs);
    var text := head + "{" + inner + "}";
    var t := text + ";" + rest;
    LegalIsPlain(name);
    assert t[0..|head|] == head;
    WalkPlain(t, 0, |head|, 1);
    assert t[|head|] == '{' && t[|head| + 1 + |inner|] == '}';
    assert t[|head| + 1..|head| + 1 + |inner|] == inner;
    WalkNodes(t, |head| + 1, childs, keys, 2);
  }

  lemma BlockReads(key: string, name: string, childs: seq<Node>, keys: seq<string>, bound: nat)
    requires WellFormedNode(Block(key, name, childs), keys)
    requires var text := key + name + "{" + Written(childs) + "}"; |text| <= bound
    requires Read(Written(childs), keys) == Blocks(childs)
    ensures var head := key + name;
            var text := head + "{" + Written(childs) + "}";
            ReadBlock(text, |head|, |text|, bound, keys) == Blocks([Block(key, name, childs)])
  {
    hide Read;
    var head, inner := key + name, Written(childs);
    var text := head + "{" + inner + "}";
    assert text[0..|head|] == head && text[|key|..|key| + |name|] == name && text[0..|key|] == key;
    assert text[|head| + 1..|head| + 1 + |inner|] == inner;
  }

  lemma StatementReads(sentence: string, rest: string, keys: seq<string>, nodes: seq<Node>)
    requires Plain(sentence) && Read(rest, keys) == Blocks(nodes)
    ensures Read(sentence + ";" + rest, keys) == Blocks([Statement(sentence)] + nodes)
  {
    hide FirstPiece, ReadBlock, Find;
    StatementFirst(sentence, rest);
    var t := sentence + ";" + rest;
    assert t[|sentence| + 1..] == rest;
  }

  lemma OneBlockReads(key: string, name: string, childs: seq<Node>, rest: string, keys: seq<string>, nodes: seq<Node>)
    requires WellFormedNode(Block(key, name, childs), keys)
    requires Read(Written(childs), keys) == Blocks(childs) && Read(rest, keys) == Blocks(nodes)
    ensures Read(WrittenNode(Block(key, name, childs)) + rest, keys) == Blocks([Block(key, name, childs)] + nodes)
  {
    hide FirstPiece, ReadBlock, Find, Written, WellFormedNode;
    var head, inner := key + name, Written(childs);
    var text := head + "{" + inner + "}";
    var t := text + ";" + rest;
    BlockFirst(key, name, childs, keys, rest);
    assert t == WrittenNode(Block(key, name, childs)) + rest;
    assert t[|text| + 1..] == rest;
    BlockReads(key, name, childs, keys, |t|);
  }

  /** Reading what is written gives the nodes back, to any depth. */
  lemma {:induction false} WrittenReturns(nodes: seq<Node>, keys: seq<string>)
    requires WellFormed(nodes, keys)
    ensures Read(Written(nodes), keys) == Blocks(nodes)
    decreases nodes
  {
    hide Read, WrittenNode;
    if nodes == [] {
      NothingReads(keys);
    } else {
      assert nodes[0] in nodes;
      assert forall n <- nodes[1..] :: n in nodes;
      WrittenReturns(nodes[1..], keys);
      assert nodes == [nodes[0]] + nodes[1..];
      match nodes[0]
      case Statement(sentence) =>
        StatementReads(sentence, Written(nodes[1..]), keys, nodes[1..]);
        assert WrittenNode(nodes[0]) == sentence + ";" by { StatementWritten(sentence); }
      case Block(key, name, childs) =>
        WrittenReturns(childs, keys);
        OneBlockReads(key, name, childs, Written(nodes[1..]), keys, nodes[1..]);
    }
  }

  lemma NothingReads(keys: seq<string>)
    ensures Read("", keys) == Blocks([])
  {
  }

  lemma StatementWritten(sentence: string)
    ensures WrittenNode(Statement(sentence)) == sentence + ";"
  {
  }

  // ----- what reading keeps of any text ------------------------------------

  /** How much of a text its statements and blocks take. */
  function Consumed(t: string): (n: nat)
    ensures n <= |t|
    decreases |t|
  {
    var semicolon := Find(t, ';');
    if semicolon.None? then 0
    else
      var p := FirstPiece(t, semicolon.value);
      if p.next > |t| then 0 else p.next + Consumed(t[p.next..])
  }

  /** What lies between the braces of a block, or all that is left when they are not in order. */
  function Inside(p: Cut): (s: string)
    requires p.brace.Some?
    ensures |s| < |p.text| || s == ""
  {
    match Substr(p.text, p.brace.value + 1, p.next - p.brace.value - 3)
    case Some(s) => s
    case None => ""
  }

  /** Every block has its closing brace behind the opening one, and a semicolon behind that. */
  predicate Followed(t: string)
    decreases |t|
  {
    var semicolon := Find(t, ';');
    semicolon.None? ||
    (var p := FirstPiece(t, semicolon.value);
     && p.next <= |t|
     && (p.brace.Some? ==> p.next - 2 > p.brace.value && t[p.next - 1] == ';' && Followed(Inside(p)))
     && Followed(t[p.next..]))
  }

  /** No block ends in text that is not a statement. */
  predicate Whole(t: string)
    decreases |t|
  {
    var semicolon := Find(t, ';');
    semicolon.None? ||
    (var p := FirstPiece(t, semicolon.value);
     && (p.brace.Some? ==> Consumed(Inside(p)) == |Inside(p)| && Whole(Inside(p)))
     && (p.next <= |t| ==> Whole(t[p.next..])))
  }

  function Semicolons(s: string): nat
  {
    if s == "" then 0 else (if s[0] == ';' then 1 else 0) + Semicolons(s[1..])
  }

  lemma {:induction false} SemicolonsAdd(a: string, b: string)
    ensures Semicolons(a + b) == Semicolons(a) + Semicolons(b)
    decreases |a|
  {
    if a == "" {
      assert a + b == b;
    } else {
      assert (a + b)[1..] == a[1..] + b;
      SemicolonsAdd(a[1..], b);
    }
  }

  lemma {:induction false} NoSemicolons(s: string)
    requires forall j :: 0 <= j < |s| ==> s[j] != ';'
    ensures Semicolons(s) == 0
    decreases |s|
  {
    if s != "" {
      NoSemicolons(s[1..]);
    }
  }

  lemma OneSemicolon(c: char)
    ensures Semicolons([c]) == if c == ';' then 1 else 0
  {
    assert [c][1..] == "";
  }

  lemma {:induction false} KeyFits(head: string, keys: seq<string>)
    ensures KeyOf(head, keys).Some? ==> |KeyOf(head, keys).value| <= |head|
    decreases |keys|
  {
    if keys != [] {
      if Contains(head, keys[0]) {
        ContainedFits(head, keys[0]);
      } else {
        KeyFits(head, keys[1..]);
      }
    }
  }

  lemma {:induction false} ContainedFits(s: string, key: string)
    requires Contains(s, key)
    ensures |key| <= |s|
    decreases |s|
  {
    if !(key <= s) {
      ContainedFits(s[1..], key);
    }
  }

  /** What a block that is read is written as: its head, and its children between braces. */
  lemma BlockIs(t: string, semicolon: nat, keys: seq<string>) returns (childs: seq<Node>)
    requires semicolon < |t| && FirstPiece(t, semicolon).brace.Some?
    requires var p := FirstPiece(t, semicolon); ReadBlock(p.text, p.brace.value, p.next - 1, |t|, keys).Blocks?
    ensures var p := FirstPiece(t, semicolon);
            && p.brace.value < |p.text| && Read(Inside(p), keys) == Blocks(childs)
            && Written(ReadBlock(p.text, p.brace.value, p.next - 1, |t|, keys).nodes)
               == t[..p.brace.value] + ("{" + Written(childs) + "};")
  {
    hide Read, Find, Walk, RFind, Contains;
    var p := FirstPiece(t, semicolon);
    var brace := p.brace.value;
    var inside := Substr(p.text, brace + 1, p.next - 1 - brace - 2);
    assert inside.Some?;
    var head := Substr(p.text, 0, brace).value;
    assert head == t[..brace];
    KeyFits(head, keys);
    var key := KeyOf(head, keys).value;
    var name := Substr(p.text, |key|, brace - |key|).value;
    childs := Read(inside.value, keys).nodes;
    var k := Substr(p.text, 0, |key|).value;
    assert k + name == t[..brace];
    OneWritten(Block(k, name, childs));
    assert k + name + "{" + Written(childs) + "};" == t[..brace] + ("{" + Written(childs) + "};");
  }

  lemma OneWritten(node: Node)
    ensures Written([node]) == WrittenNode(node)
  {
    assert [node][1..] == [];
    assert Written([]) == "";
  }

  lemma {:induction false} WrittenAdds(a: seq<Node>, b: seq<Node>)
    ensures Written(a + b) == Written(a) + Written(b)
    decreases |a|
  {
    hide WrittenNode;
    if a == [] {
      assert a + b == b;
    } else {
      assert (a + b)[1..] == a[1..] + b;
      WrittenAdds(a[1..], b);
    }
  }

  /** The text a block takes: head, braces and inside, and one character more. */
  lemma BlockSlices(t: string, semicolon: nat)
    requires Find(t, ';') == Some(semicolon) && FirstPiece(t, semicolon).brace.Some?
    requires var p := FirstPiece(t, semicolon); p.brace.value < |p.text| && p.next <= |t|
    ensures var p := FirstPiece(t, semicolon);
            && p.brace.value < semicolon
            && (p.next - 2 > p.brace.value ==>
                t[..p.next] == t[..p.brace.value] + ("{" + Inside(p) + ("}" + [t[p.next - 1]])))
            && (p.next - 2 <= p.brace.value ==> p.next - 1 <= p.brace.value)
  {
    hide Find, Walk, RFind;
    var p := FirstPiece(t, semicolon);
    var brace, end := p.brace.value, RFind(p.text, '}');
    assert t[..semicolon][brace] == t[brace] == '{';
    if p.next - 2 > brace {
      assert end == Some(p.next - 2) && t[p.next - 2] == '}';
      assert Inside(p) == t[brace + 1..p.next - 2];
      assert t[..p.next] == t[..brace] + ([t[brace]] + t[brace + 1..p.next - 2] + ([t[p.next - 2]] + [t[p.next - 1]]));
    }
  }

  lemma SemicolonsSplit(t: string, n: nat)
    requires n <= |t|
    ensures Semicolons(t) == Semicolons(t[..n]) + Semicolons(t[n..])
  {
    assert t == t[..n] + t[n..];
    SemicolonsAdd(t[..n], t[n..]);
  }

  lemma SemicolonsInBraces(head: string, inside: string, end: string)
    ensures Semicolons(head + ("{" + inside + end)) == Semicolons(head) + Semicolons(inside) + Semicolons(end)
  {
    SemicolonsAdd(head, "{" + inside + end);
    SemicolonsAdd("{" + inside, end);
    SemicolonsAdd("{", inside);
    OneSemicolon('{');
  }

  lemma Endings(c: char)
    ensures Semicolons("};") == 1 && Semicolons("}" + [c]) == if c == ';' then 1 else 0
  {
    SemicolonsAdd("}", ";");
    SemicolonsAdd("}", [c]);
    OneSemicolon('}');
    OneSemicolon(';');
    OneSemicolon(c);
    assert "}" + ";" == "};";
  }

  /** What one piece is written as has at least the semicolons of the text it takes. */
  lemma PieceKeepsSemicolons(t: string, semicolon: nat, keys: seq<string>, nodes: seq<Node>)
    requires Find(t, ';') == Some(semicolon) && FirstPiece(t, semicolon).next <= |t|
    requires var p := FirstPiece(t, semicolon);
             Blocks(nodes) == if p.brace.None? then Blocks([Statement(p.text)])
                              else ReadBlock(p.text, p.brace.value, p.next - 1, |t|, keys)
    requires var p := FirstPiece(t, semicolon);
             p.brace.Some? && Read(Inside(p), keys).Blocks? ==>
               var w := Written(Read(Inside(p), keys).nodes);
               && Semicolons(w) >= Semicolons(Inside(p))
               && (Semicolons(w) == Semicolons(Inside(p)) <==> Followed(Inside(p)))
    ensures var p := FirstPiece(t, semicolon);
            && Semicolons(Written(nodes)) >= Semicolons(t[..p.next])
            && (Semicolons(Written(nodes)) == Semicolons(t[..p.next]) <==>
                p.brace.None? || (p.next - 2 > p.brace.value && t[p.next - 1] == ';' && Followed(Inside(p))))
  {
    hide Find, Semicolons, Followed, Read, ReadBlock, Inside;
    var p := FirstPiece(t, semicolon);
    if p.brace.None? {
      StatementText(t, semicolon);
    } else {
      var childs := BlockIs(t, semicolon, keys);
      BlockSlices(t, semicolon);
      hide FirstPiece, Written;
      var head := t[..p.brace.value];
      SemicolonsInBraces(head, Written(childs), "};");
      Endings(t[p.next - 1]);
      NoSemicolons(head);
      if p.next - 2 > p.brace.value {
        SemicolonsInBraces(head, Inside(p), "}" + [t[p.next - 1]]);
      } else {
        NoSemicolons(t[..p.next]);
      }
    }
  }

  lemma StatementText(t: string, semicolon: nat)
    requires Find(t, ';') == Some(semicolon) && FirstPiece(t, semicolon).brace.None?
    ensures var p := FirstPiece(t, semicolon); Written([Statement(p.text)]) == t[..p.next]
  {
    hide Find;
    OneWritten(Statement(t[..semicolon]));
    assert t[..semicolon + 1] == t[..semicolon] + ";";
  }

  /** Writing what was read never loses a semicolon, and adds none exactly when every closing
      brace has one behind it. */
  lemma {:induction false} SemicolonsKeptExactly(t: string, keys: seq<string>)
    requires Read(t, keys).Blocks?
    ensures var w := Written(Read(t, keys).nodes);
            && Semicolons(w) >= Semicolons(t)
            && (Semicolons(w) == Semicolons(t) <==> Followed(t))
    decreases |t|
  {
    hide Find, FirstPiece, ReadBlock, Inside, Semicolons;
    var semicolon := Find(t, ';');
    if semicolon.None? {
      NoneFound(t);
      NoSemicolons(t);
      NoSemicolons("");
    } else {
      var p := FirstPiece(t, semicolon.value);
      if p.brace.Some? {
        var childs := BlockIs(t, semicolon.value, keys);
        SemicolonsKeptExactly(Inside(p), keys);
      }
      var nodes := if p.brace.None? then [Statement(p.text)] else ReadBlock(p.text, p.brace.value, p.next - 1, |t|, keys).nodes;
      var rest := Read(t[p.next..], keys).nodes;
      PieceKeepsSemicolons(t, semicolon.value, keys, nodes);
      SemicolonsKeptExactly(t[p.next..], keys);
      SemicolonsSplit(t, p.next);
      WrittenAdds(nodes, rest);
      SemicolonsAdd(Written(nodes), Written(rest));
    }
  }

  lemma NoneFound(t: string)
    requires Find(t, ';').None?
    ensures forall j :: 0 <= j < |t| ==> t[j] != ';'
  {
  }

  /** The same for lengths: nothing gets longer, and nothing shorter exactly when no block
      ends in text that is not a statement; then it is the text itself. */
  lemma PieceIsNoLonger(t: string, semicolon: nat, keys: seq<string>, nodes: seq<Node>)
    requires Find(t, ';') == Some(semicolon) && FirstPiece(t, semicolon).next <= |t| && Followed(t)
    requires var p := FirstPiece(t, semicolon);
             Blocks(nodes) == if p.brace.None? then Blocks([Statement(p.text)])
                              else ReadBlock(p.text, p.brace.value, p.next - 1, |t|, keys)
    requires var p := FirstPiece(t, semicolon);
             p.brace.Some? && Read(Inside(p), keys).Blocks? ==>
               var w, inside := Written(Read(Inside(p), keys).nodes), Inside(p);
               && |w| <= Consumed(inside) && (|w| == Consumed(inside) <==> Whole(inside))
               && (Whole(inside) ==> w == inside[..Consumed(inside)])
    ensures var p := FirstPiece(t, semicolon);
            var whole := p.brace.None? || (Consumed(Inside(p)) == |Inside(p)| && Whole(Inside(p)));
            && |Written(nodes)| <= p.next && (|Written(nodes)| == p.next <==> whole)
            && (whole ==> Written(nodes) == t[..p.next])
  {
    hide Find, Read, ReadBlock, Inside, Whole, Consumed;
    var p := FirstPiece(t, semicolon);
    if p.brace.None? {
      StatementText(t, semicolon);
    } else {
      var childs := BlockIs(t, semicolon, keys);
      BlockSlices(t, semicolon);
      hide FirstPiece, Written;
      var inside := Inside(p);
      assert Followed(t) ==> p.next - 2 > p.brace.value && t[p.next - 1] == ';';
      hide Followed;
      assert "}" + [';'] == "};";
      if Consumed(inside) == |inside| && Whole(inside) {
        assert inside[..|inside|] == inside;
      }
    }
  }

  lemma {:induction false} LengthKeptExactly(t: string, keys: seq<string>)
    requires Read(t, keys).Blocks? && Followed(t)
    ensures var w := Written(Read(t, keys).nodes);
            && |w| <= Consumed(t) && (|w| == Consumed(t) <==> Whole(t))
            && (Whole(t) ==> w == t[..Consumed(t)])
    decreases |t|
  {
    hide Find, FirstPiece, ReadBlock, Inside;
    var semicolon := Find(t, ';');
    if semicolon.Some? {
      var p := FirstPiece(t, semicolon.value);
      if p.brace.Some? {
        var childs := BlockIs(t, semicolon.value, keys);
        LengthKeptExactly(Inside(p), keys);
      }
      var nodes := if p.brace.None? then [Statement(p.text)] else ReadBlock(p.text, p.brace.value, p.next - 1, |t|, keys).nodes;
      var behind := t[p.next..];
      var rest := Read(behind, keys).nodes;
      assert Read(t, keys) == Blocks(nodes + rest) && Consumed(t) == p.next + Consumed(behind);
      assert Followed(behind);
      assert Whole(t) <==> (p.brace.Some? ==> Consumed(Inside(p)) == |Inside(p)| && Whole(Inside(p))) && Whole(behind);
      PieceIsNoLonger(t, semicolon.value, keys, nodes);
      LengthKeptExactly(behind, keys);
      hide *;
      WrittenAdds(nodes, rest);
      SlicesJoin(t, p.next, Consumed(behind));
    }
  }

  lemma SlicesJoin(t: string, n: nat, m: nat)
    requires n + m <= |t|
    ensures t[..n] + t[n..][..m] == t[..n + m]
  {
  }

  /** What is left over has no semicolon. */
  lemma {:induction false} RestHasNone(t: string, keys: seq<string>)
    requires Read(t, keys).Blocks?
    ensures Semicolons(t[Consumed(t)..]) == 0
    decreases |t|
  {
    hide Find, FirstPiece, ReadBlock, Semicolons;
    var semicolon := Find(t, ';');
    if semicolon.None? {
      NoneFound(t);
      NoSemicolons(t[0..]);
    } else {
      var next := FirstPiece(t, semicolon.value).next;
      RestHasNone(t[next..], keys);
      assert t[next..][Consumed(t[next..])..] == t[next + Consumed(t[next..])..];
    }
  }

  /** Writing what was read gives back the text it took exactly when a semicolon follows every
      closing brace and every block is made of statements and blocks to its end. */
  lemma ReadKeepsExactly(t: string, keys: seq<string>)
    requires Read(t, keys).Blocks?
    ensures Written(Read(t, keys).nodes) == t[..Consumed(t)] <==> Followed(t) && Whole(t)
  {
    hide Read, Written, Followed, Whole, Semicolons;
    SemicolonsKeptExactly(t, keys);
    RestHasNone(t, keys);
    SemicolonsSplit(t, Consumed(t));
    if Followed(t) {
      LengthKeptExactly(t, keys);
    }
  }

  /** A block whose text is in order is followed by nothing, and the reader throws, exactly when
      its last brace ends the text. */
  lemma BraceAtEnd(t: string, semicolon: nat, keys: seq<string>)
    requires Find(t, ';') == Some(semicolon) && FirstPiece(t, semicolon).brace.Some?
    requires var p := FirstPiece(t, semicolon); ReadBlock(p.text, p.brace.value, p.next - 1, |t|, keys).Blocks?
    ensures FirstPiece(t, semicolon).next > |t| <==> Walk(t, 0, 1) == |t| && t[|t| - 1] == '}'
    ensures Walk(t, 0, 1) == |t| && t[|t| - 1] == '}' ==> Read(t, keys) == Thrown(OutOfRange)
  {
    hide Find, ReadBlock, Walk;
    assert t[..|t|] == t;
  }

  lemma SmallBlockReads(rest: string)
    ensures var t := "kn{x;}" + rest;
            && Find(t, ';') == Some(4) && FirstPiece(t, 4) == Cut("kn{x;}", Some(2), 7)
            && ReadBlock("kn{x;}", 2, 6, |t|, ["k"]) == Blocks([Block("k", "n", [Statement("x")])])
  {
    hide Find, RFind, Read;
    var t := "kn{x;}" + rest;
    FindAt(t, ';', 4);
    FindAt(t[..4], '{', 2);
    assert Walk(t, 5, 2) == 6 && Walk(t, 3, 2) == 6 && Walk(t, 1, 1) == 6;
    assert t[..6] == "kn{x;" + "}" == "kn{x;}";
    LastBrace("kn{x;");
    var text := "kn{x;}";
    assert text[0..0 + 2] == "kn" && text[1..1 + 1] == "n" && text[0..0 + 1] == "k" && text[3..3 + 2] == "x" + ";";
    assert Substr(text, 0, 2) == Some("kn") && Substr(text, 1, 1) == Some("n") && Substr(text, 0, 1) == Some("k");
    assert Substr(text, 3, 2) == Some("x" + ";");
    assert "k" <= "kn" && KeyOf("kn", ["k"]) == Some("k");
    assert AllLegal("n");
    LastStatementReads("x", ["k"]);
  }

  lemma LastStatementReads(sentence: string, keys: seq<string>)
    requires Plain(sentence)
    ensures Read(sentence + ";", keys) == Blocks([Statement(sentence)])
  {
    NothingReads(keys);
    StatementReads(sentence, "", keys, []);
    assert sentence + ";" + "" == sentence + ";" && [Statement(sentence)] + [] == [Statement(sentence)];
  }

  /** Without the semicolon the next character is lost. */
  lemma CharacterLost()
    ensures Read("kn{x;}stmt;", ["k"]) == Blocks([Block("k", "n", [Statement("x")]), Statement("tmt")])
  {
    hide Find, FirstPiece, ReadBlock;
    var t := "kn{x;}" + "stmt;";
    SmallBlockReads("stmt;");
    assert t == "kn{x;}stmt;" && t[7..] == "tmt" + ";";
    LastStatementReads("tmt", ["k"]);
  }

  /** And at the end of the text the reader throws. */
  lemma EndIsThrown()
    ensures Read("kn{x;}", ["k"]) == Thrown(OutOfRange)
  {
    hide Find, FirstPiece, ReadBlock;
    SmallBlockReads("");
    assert "kn{x;}" + "" == "kn{x;}";
  }

  // ----- the reader -------------------------------------------------------

  /** Reads piece by piece from a shrinking copy of the text, and recursively inside blocks. */
  method ReadBlocks(str: string, keys: seq<string>) returns (r: Result)
    ensures r == Read(str, keys)
    decreases |str|, 1
  {
    hide Find, FirstPiece, ReadBlock;
    var tstr := str;
    var blocks: seq<Node> := [];
    NothingBefore(Read(str, keys));
    while |tstr| > 0
      invariant |tstr| <= |str|
      invariant Read(str, keys) == Before(blocks, Read(tstr, keys))
      decreases |tstr|
    {
      var semIdx := Find(tstr, ';');
      if semIdx.None? {
        break;
      }
      var p := TakePiece(tstr, semIdx.value);
      var node: Result;
      if p.brace.None? {
        node := Blocks([Statement(p.text)]);
      } else {
        node := TakeBlock(p.text, p.brace.value, p.next - 1, |tstr|, keys);
      }
      if node.Thrown? {
        return node;
      }
      if p.next > |tstr| {
        return Thrown(OutOfRange);
      }
      MoreBefore(blocks, node.nodes, Read(tstr[p.next..], keys));
      blocks := blocks + node.nodes;
      tstr := tstr[p.next..];
    }
    NothingAfter(tstr, keys);
    assert blocks + [] == blocks;
    r := Blocks(blocks);
  }

  lemma NothingAfter(t: string, keys: seq<string>)
    requires t == "" || Find(t, ';').None?
    ensures Read(t, keys) == Blocks([])
  {
  }

  function Before(blocks: seq<Node>, rest: Result): Result
  {
    if rest.Thrown? then rest else Blocks(blocks + rest.nodes)
  }

  lemma NothingBefore(rest: Result)
    ensures Before([], rest) == rest
  {
    if rest.Blocks? {
      assert [] + rest.nodes == rest.nodes;
    }
  }

  lemma MoreBefore(blocks: seq<Node>, nodes: seq<Node>, rest: Result)
    ensures Before(blocks + nodes, rest) == Before(blocks, Before(nodes, rest))
  {
    if rest.Blocks? {
      assert (blocks + nodes) + rest.nodes == blocks + (nodes + rest.nodes);
    }
  }

  /** Counts braces to find where a block ends. */
  method TakePiece(t: string, semicolon: nat) returns (p: Cut)
    requires semicolon < |t|
    ensures p == FirstPiece(t, semicolon)
  {
    hide Find, RFind;
    var brace := Find(t[..semicolon], '{');
    if brace.None? {
      return Cut(t[..semicolon], None, semicolon + 1);
    }
    var blkStack := 1;
    var i := 0;
    while i < |t|
      invariant 0 <= i <= |t| && Walk(t, 0, 1) == Walk(t, i, blkStack)
      decreases |t| - i
    {
      var c := t[i];
      i := i + 1;
      if c == '{' {
        blkStack := blkStack + 1;
      } else if c == '}' {
        blkStack := blkStack - 1;
        if blkStack == 1 {
          break;
        }
      }
    }
    assert i == Walk(t, 0, 1);
    var text := t[..i];
    var end := RFind(text, '}');
    return Cut(text, brace, if end.Some? then end.value + 2 else 1);
  }

  method TakeBlock(text: string, brace: nat, end: nat, bound: nat, keys: seq<string>) returns (r: Result)
    requires |text| <= bound && brace < bound
    ensures r == ReadBlock(text, brace, end, bound, keys)
    decreases bound, 0
  {
    hide Read, Contains;
    var head := Substr(text, 0, brace).value;
    assert keys[0..] == keys;
    for i := 0 to |keys|
      invariant KeyOf(head, keys) == KeyOf(head, keys[i..])
    {
      assert keys[i..][1..] == keys[i + 1..];
      var key := keys[i];
      if Contains(head, key) {
        var name := Substr(text, |key|, brace - |key|);
        if name.None? {
          return Thrown(OutOfRange);
        }
        var legal := IfNameIllegal(name.value);
        if !legal {
          return Thrown(IllegalName);
        }
        if key == "" {
          return Thrown(UnknownKey);
        }
        var inside := Substr(text, brace + 1, end - brace - 2);
        if inside.None? {
          return Thrown(OutOfRange);
        }
        var childs := ReadBlocks(inside.value, keys);
        return if childs.Thrown? then childs
               else Blocks([Block(Substr(text, 0, |key|).value, name.value, childs.nodes)]);
      }
    }
    assert keys[|keys|..] == [];
    return Thrown(UnknownKey);
  }
}
