/** iks_string: the size pass, then the pass that writes, over the walk of IksWalk. */
module IksString {
  import opened Xml
  import opened Iks
  import opened IksWalk

  predicate IsSpecial(c: char) {
    c == '&' || c == '<' || c == '>' || c == '\'' || c == '"'
  }

  lemma {:induction false} EscapeConcat(s: string, t: string)
    ensures Escape(s + t) == Escape(s) + Escape(t)
  {
    if s == "" {
      assert s + t == t;
    } else {
      assert (s + t)[1..] == s[1..] + t;
      EscapeConcat(s[1..], t);
    }
  }

  /** escape_size */
  method EscapeSize(src: string) returns (size: nat)
    ensures size == |Escape(src)|
  {
    size := 0;
    assert src[0..] == src;
    for i := 0 to |src|
      invariant size + |Escape(src[i..])| == |Escape(src)|
    {
      assert src[i..][0] == src[i] && src[i..][1..] == src[i + 1..];
      match src[i] {
        case '&' => size := size + 5;
        case '\'' => size := size + 6;
        case '"' => size := size + 6;
        case '<' => size := size + 4;
        case '>' => size := size + 4;
        case _ => size := size + 1;
      }
    }
  }

  /** my_strcat */
  method MyStrcat(ret: array<char>, dest: nat, src: string) returns (t: nat)
    requires dest + |src| <= ret.Length
    modifies ret
    ensures t == dest + |src| && ret[..t] == old(ret[..dest]) + src
  {
    forall i | 0 <= i < |src| {
      ret[dest + i] := src[i];
    }
    t := dest + |src|;
  }

  function Entity(c: char): string
    requires IsSpecial(c)
    ensures Entity(c) == EscapeChar(c)
  {
    match c
    case '&' => "&amp;"
    case '\'' => "&apos;"
    case '"' => "&quot;"
    case '<' => "&lt;"
    case '>' => "&gt;"
  }

  /** `written` with src[j..i], which has nothing to escape and is still to be copied, and with the rest
      escaped, makes the escaped text. */
  ghost predicate Escaping(written: string, before: string, src: string, j: nat, i: nat) {
    && j <= i <= |src| && (forall k :: j <= k < i ==> !IsSpecial(src[k]))
    && written + src[j..i] + Escape(src[i..]) == before + Escape(src)
  }

  lemma PlainChar(c: char)
    requires !IsSpecial(c)
    ensures EscapeChar(c) == [c]
  {
  }

  lemma EscapingPlain(written: string, before: string, src: string, j: nat, i: nat)
    requires Escaping(written, before, src, j, i) && i < |src| && !IsSpecial(src[i])
    ensures Escaping(written, before, src, j, i + 1)
  {
    hide EscapeChar, IsSpecial;
    PlainChar(src[i]);
    assert src[i..][0] == src[i] && src[i..][1..] == src[i + 1..];
    assert src[j..i + 1] == src[j..i] + [src[i]];
    assert written + src[j..i + 1] + Escape(src[i + 1..]) == written + src[j..i] + ([src[i]] + Escape(src[i + 1..]));
  }

  lemma EscapingSpecial(written: string, before: string, src: string, j: nat, i: nat)
    requires Escaping(written, before, src, j, i) && i < |src| && IsSpecial(src[i])
    ensures Escaping(written + src[j..i] + Entity(src[i]), before, src, i + 1, i + 1)
    ensures |written + src[j..i] + Entity(src[i])| <= |before + Escape(src)|
  {
    hide EscapeChar, Entity, IsSpecial;
    assert src[i..][0] == src[i] && src[i..][1..] == src[i + 1..];
    assert src[i + 1..i + 1] == "";
    var w := written + src[j..i] + Entity(src[i]);
    assert w + "" + Escape(src[i + 1..]) == written + src[j..i] + (Entity(src[i]) + Escape(src[i + 1..]));
  }

  /** escape: runs without special characters are copied whole. */
  method EscapeInto(ret: array<char>, dest: nat, src: string) returns (t: nat)
    requires dest + |Escape(src)| <= ret.Length
    modifies ret
    ensures t == dest + |Escape(src)| && ret[..t] == old(ret[..dest]) + Escape(src)
  {
    hide Escape, Escaping;
    ghost var before := ret[..dest];
    var j, i := 0, 0;
    t := dest;
    EscapingStarts(before, src);
    while i < |src|
      invariant t <= ret.Length && j <= i <= |src| && Escaping(ret[..t], before, src, j, i)
    {
      var c := src[i];
      if IsSpecial(c) {
        EscapingSpecial(ret[..t], before, src, j, i);
        if i - j > 0 {
          t := MyStrcat(ret, t, src[j..i]);
        } else {
          assert ret[..t] + src[j..i] == ret[..t];
        }
        t := MyStrcat(ret, t, Entity(c));
        j := i + 1;
      } else {
        EscapingPlain(ret[..t], before, src, j, i);
      }
      i := i + 1;
    }
    EscapingEnds(ret[..t], before, src, j);
    if i - j > 0 {
      t := MyStrcat(ret, t, src[j..i]);
    } else {
      assert ret[..t] + src[j..i] == ret[..t];
    }
  }

  lemma EscapingStarts(before: string, src: string)
    ensures Escaping(before, before, src, 0, 0)
  {
    assert src[0..] == src && src[0..0] == "";
    assert before + "" == before;
  }

  lemma EscapingEnds(written: string, before: string, src: string, j: nat)
    requires Escaping(written, before, src, j, |src|)
    ensures written + src[j..|src|] == before + Escape(src)
  {
    assert src[|src|..] == "";
    assert written + src[j..|src|] + "" == written + src[j..|src|];
  }

  // ----- the head of a tag

  function Head(name: string, atts: Attrs): string {
    "<" + name + PrintAttrs(atts)
  }

  lemma PrintAttrsFrom(list: Attrs, k: nat)
    requires k < |list|
    ensures PrintAttrs(list[k..]) == " " + list[k].0 + "='" + Escape(list[k].1) + "'" + PrintAttrs(list[k + 1..])
  {
    hide Escape;
    assert list[k..][0] == list[k] && list[k..][1..] == list[k + 1..];
  }

  /** The size of the head of tag y: its name and the chain of its attributes. */
  method HeadSize(d: Doc, y: int) returns (size: nat)
    requires d.Valid() && d.Value().IsTag(y)
    ensures size == |Head(d.nodes[y].name, Attributes(d.Value(), y))|
  {
    hide Arena.Linked, Escape, PrintAttrs, Attributes;
    ghost var a, list, ids, k := d.Value(), Attributes(d.Value(), y), d.atrs[y], 0;
    LastOfChain(a, y);
    size := 1 + |d.nodes[y].name|;
    var z := d.nodes[y].attribs;
    assert list[0..] == list;
    while z != NULL
      invariant k <= |ids| && z == At(ids, k)
      invariant size + |PrintAttrs(list[k..])| == |Head(d.nodes[y].name, list)|
      decreases |ids| - k
    {
      AtrLinks(a, y, k);
      PrintAttrsFrom(list, k);
      var escaped := EscapeSize(d.nodes[z].text);
      size := size + 4 + |d.nodes[z].name| + escaped;
      z := d.nodes[z].next;
      k := k + 1;
    }
    NoMoreAttrs(a, y, k);
  }

  lemma NoMoreAttrs(a: Arena, y: int, k: nat)
    requires a.Linked() && a.Has(y) && k <= |a.atrs[y]| && At(a.atrs[y], k) == NULL
    ensures k == |a.atrs[y]| && PrintAttrs(Attributes(a, y)[k..]) == ""
  {
    if k < |a.atrs[y]| {
      AtrLinks(a, y, k);
    }
  }

  /** Writes one attribute. */
  method WriteAttrib(ret: array<char>, dest: nat, name: string, value: string) returns (t: nat)
    requires dest + |" " + name + "='" + Escape(value) + "'"| <= ret.Length
    modifies ret
    ensures t == dest + |" " + name + "='" + Escape(value) + "'"|
    ensures ret[..t] == old(ret[..dest]) + (" " + name + "='" + Escape(value) + "'")
  {
    hide Escape;
    t := MyStrcat(ret, dest, " ");
    t := MyStrcat(ret, t, name);
    t := MyStrcat(ret, t, "=");
    t := MyStrcat(ret, t, "'");
    t := EscapeInto(ret, t, value);
    t := MyStrcat(ret, t, "'");
  }

  /** Writes the head of tag y. */
  method WriteHead(d: Doc, ret: array<char>, dest: nat, y: int) returns (t: nat)
    requires d.Valid() && d.Value().IsTag(y)
    requires dest + |Head(d.nodes[y].name, Attributes(d.Value(), y))| <= ret.Length
    modifies ret
    ensures t == dest + |Head(d.nodes[y].name, Attributes(d.Value(), y))|
    ensures ret[..t] == old(ret[..dest]) + Head(d.nodes[y].name, Attributes(d.Value(), y))
  {
    hide Arena.Linked, Escape, PrintAttrs, Attributes;
    ghost var a, list, ids, k := d.Value(), Attributes(d.Value(), y), d.atrs[y], 0;
    ghost var before, all := ret[..dest], Head(d.nodes[y].name, list);
    LastOfChain(a, y);
    t := MyStrcat(ret, dest, "<");
    t := MyStrcat(ret, t, d.nodes[y].name);
    var z := d.nodes[y].attribs;
    assert list[0..] == list;
    assert ret[..t] + PrintAttrs(list[0..]) == before + all;
    while z != NULL
      invariant k <= |ids| && z == At(ids, k) && t <= ret.Length
      invariant ret[..t] + PrintAttrs(list[k..]) == before + all
      decreases |ids| - k
    {
      AtrLinks(a, y, k);
      PrintAttrsFrom(list, k);
      ghost var done, att := ret[..t], " " + list[k].0 + "='" + Escape(list[k].1) + "'";
      assert done + (att + PrintAttrs(list[k + 1..])) == (done + att) + PrintAttrs(list[k + 1..]);
      t := WriteAttrib(ret, t, d.nodes[z].name, d.nodes[z].text);
      z := d.nodes[z].next;
      k := k + 1;
    }
    NoMoreAttrs(a, y, k);
    assert ret[..t] + "" == ret[..t];
  }

  // ----- the two passes

  lemma RenderCons(e: Event, es: seq<Event>)
    ensures Render([e] + es) == RenderEvent(e) + Render(es)
  {
    hide RenderEvent;
    RenderConcat([e], es);
    RenderOne(e);
  }

  /** The variables of the loop: x, level and dir stand for the cursor. */
  ghost predicate AtCursor(a: Arena, c: Cursor, x: int, level: int, dir: int)
    requires a.Linked()
  {
    && Standing(a, c) && a.Has(x) && x == c.x && level == |c.path| && 0 <= dir <= 1 && (dir == 1 <==> c.up)
    && (level == 0 ==> dir == 0)
  }

  lemma DownRender(a: Arena, c: Cursor)
    requires a.Linked() && a.Has(c.x) && Standing(a, c) && !c.up && c.t.Element? && c.t.kids != []
    ensures var d := Down(c, a.nodes[c.x].children);
      && AtCursor(a, d, d.x, |c.path| + 1, 0) && Measure(d) < Measure(c)
      && Render(Todo(c)) == Head(c.t.name, c.t.atts) + ">" + Render(Todo(d))
  {
    hide Arena.Linked, Standing, Todo, Render, Measure, PrintAttrs;
    GoDown(a, c);
    RenderCons(Tag(c.t.name, c.t.atts, Open), Todo(Down(c, a.nodes[c.x].children)));
  }

  lemma LeafRender(a: Arena, c: Cursor)
    requires a.Linked() && Standing(a, c) && !c.up && IsLeaf(c.t)
    ensures Standing(a, Finish(c)) && Measure(Finish(c)) < Measure(c)
    ensures Render(Todo(c)) == RenderEvent(LeafEvent(c.t)) + Render(Todo(Finish(c)))
    ensures c.path == [] ==> Render(Todo(Finish(c))) == ""
  {
    hide Arena.Linked, Standing, Todo, Render, Measure, RenderEvent;
    FinishLeaf(a, c);
    RenderCons(LeafEvent(c.t), Todo(Finish(c)));
    NothingBehind(Finish(c));
  }

  lemma NothingBehind(c: Cursor)
    ensures c.up && c.path == [] ==> Render(Todo(c)) == ""
  {
  }

  lemma BackRender(a: Arena, c: Cursor)
    requires a.Linked() && Standing(a, c) && c.up && c.path != [] && a.nodes[c.x].next == NULL
    ensures var d := Back(c);
      && a.nodes[c.x].parent == d.x && a.Has(d.x) && Standing(a, d) && Measure(d) < Measure(c)
      && Render(Todo(c)) == "</" + a.nodes[d.x].name + ">" + Render(Todo(d))
      && (d.path == [] ==> Render(Todo(d)) == "")
  {
    hide Arena.Linked, Standing, Todo, Render, Measure;
    GoBack(a, c);
    RenderCons(Tag(Dom.Last(c.path).name, [], Close), Todo(Back(c)));
    NothingBehind(Back(c));
  }

  /** The first pass. */
  method StringSize(d: Doc, x: int, ghost t: Tree) returns (size: nat)
    requires d.Valid() && t.Element? && Represents(d.Value(), x, t, 0, |d.nodes|)
    ensures size == |Print(t)|
  {
    hide Arena.Linked, Represents, Standing, Todo, Measure, Render, Escape, PrintAttrs, Attributes, Print;
    ghost var a, c := d.Value(), Start(x, t);
    Starts(a, x, t);
    RenderIsPrint(t);
    size := 0;
    var level, dir, y := 0, 0, x;
    while true
      invariant AtCursor(a, c, y, level, dir) && (level == 0 ==> c == Start(x, t))
      invariant size + |Render(Todo(c))| == |Print(t)|
      decreases Measure(c), dir
    {
      if dir == 0 {
        CurrentNode(a, c);
        if d.nodes[y].kind == TagNode {
          var head := HeadSize(d, y);
          size := size + head;
          if d.nodes[y].children != NULL {
            DownRender(a, c);
            size := size + 1;
            y := d.nodes[y].children;
            level := level + 1;
            c := Down(c, y);
            continue;
          } else {
            size := size + 2;
          }
        } else {
          var escaped := EscapeSize(d.nodes[y].text);
          size := size + escaped;
        }
        LeafRender(a, c);
        c := Finish(c);
      }
      var z := d.nodes[y].next;
      if z != NULL {
        if level == 0 {
          if d.nodes[y].children != NULL {
            assert false;  // the end tag the source adds here is never due
          }
          break;
        }
        GoOver(a, c);
        c := Over(c, z);
        y := z;
        dir := 0;
      } else {
        if level > 0 {
          BackRender(a, c);
          c := Back(c);
        }
        y := d.nodes[y].parent;
        level := level - 1;
        if level >= 0 {
          size := size + 3 + |d.nodes[y].name|;
        }
        if level < 1 {
          break;
        }
        dir := 1;
      }
    }
  }

  /** What is written and what is still to be written make the whole. */
  ghost predicate Writing(written: string, c: Cursor, whole: string) {
    written + Render(Todo(c)) == whole
  }

  lemma WritingMore(written: string, c: Cursor, whole: string, s: string, d: Cursor)
    requires Writing(written, c, whole) && Render(Todo(c)) == s + Render(Todo(d))
    ensures Writing(written + s, d, whole) && |written| + |s| <= |whole|
  {
    hide Render, Todo;
    assert written + (s + Render(Todo(d))) == (written + s) + Render(Todo(d));
  }

  /** Writes an end tag. */
  method WriteClose(ret: array<char>, dest: nat, name: string) returns (t: nat)
    requires dest + |"</" + name + ">"| <= ret.Length
    modifies ret
    ensures t == dest + |"</" + name + ">"| && ret[..t] == old(ret[..dest]) + ("</" + name + ">")
  {
    t := MyStrcat(ret, dest, "</");
    t := MyStrcat(ret, t, name);
    t := MyStrcat(ret, t, ">");
  }

  /** Writes what a node is written as when the walk first comes to it, its children aside. */
  method WriteNode(d: Doc, ret: array<char>, dest: nat, x: int, ghost c: Cursor, ghost whole: string) returns (t: nat)
    requires d.Valid() && Standing(d.Value(), c) && !c.up && x == c.x && d.Value().Has(x)
    requires dest <= ret.Length && |whole| <= ret.Length && Writing(ret[..dest], c, whole)
    modifies ret
    ensures t <= ret.Length
    ensures if d.nodes[x].kind == TagNode && d.nodes[x].children != NULL
      then c.t.Element? && c.t.kids != [] && Writing(ret[..t], Down(c, d.nodes[x].children), whole)
      else IsLeaf(c.t) && Writing(ret[..t], Finish(c), whole)
  {
    hide Arena.Linked, Represents, Standing, Todo, Measure, Render, Escape, PrintAttrs, Attributes, Writing;
    ghost var a, before := d.Value(), ret[..dest];
    CurrentNode(a, c);
    if d.nodes[x].kind == TagNode {
      if d.nodes[x].children != NULL {
        DownRender(a, c);
        WritingMore(before, c, whole, Head(c.t.name, c.t.atts) + ">", Down(c, d.nodes[x].children));
        t := WriteHead(d, ret, dest, x);
        t := MyStrcat(ret, t, ">");
        assert ret[..t] == before + (Head(c.t.name, c.t.atts) + ">");
      } else {
        LeafRender(a, c);
        WritingMore(before, c, whole, Head(c.t.name, c.t.atts) + "/>", Finish(c));
        t := WriteHead(d, ret, dest, x);
        t := MyStrcat(ret, t, "/>");
        assert ret[..t] == before + (Head(c.t.name, c.t.atts) + "/>");
      }
    } else {
      LeafRender(a, c);
      WritingMore(before, c, whole, Escape(c.t.text), Finish(c));
      t := EscapeInto(ret, dest, d.nodes[x].text);
    }
  }

  /** The second pass. */
  method WriteString(d: Doc, x: int, ret: array<char>, ghost tree: Tree) returns (t: nat)
    requires d.Valid() && tree.Element? && Represents(d.Value(), x, tree, 0, |d.nodes|) && |Print(tree)| < ret.Length
    modifies ret
    ensures t == |Print(tree)| && ret[..t] == Print(tree)
  {
    hide Arena.Linked, Represents, Standing, Todo, Measure, Render, Print, Writing;
    ghost var a, c, whole := d.Value(), Start(x, tree), Print(tree);
    Starts(a, x, tree);
    WritingStarts(x, tree);
    t := 0;
    assert ret[..0] == "";
    var level, dir, y := 0, 0, x;
    while true
      invariant AtCursor(a, c, y, level, dir) && (level == 0 ==> c == Start(x, tree))
      invariant t <= ret.Length && Writing(ret[..t], c, whole)
      decreases Measure(c), dir
    {
      if dir == 0 {
        CurrentNode(a, c);
        t := WriteNode(d, ret, t, y, c, whole);
        if d.nodes[y].kind == TagNode && d.nodes[y].children != NULL {
          DownRender(a, c);
          y := d.nodes[y].children;
          level := level + 1;
          c := Down(c, y);
          continue;
        }
        LeafRender(a, c);
        c := Finish(c);
      }
      var z := d.nodes[y].next;
      if z != NULL {
        if level == 0 {
          if d.nodes[y].children != NULL {
            assert false;  // the end tag the source adds here is never due
          }
          break;
        }
        GoOver(a, c);
        WritingSame(ret[..t], c, whole, Over(c, z));
        c := Over(c, z);
        y := z;
        dir := 0;
      } else {
        if level > 0 {
          BackRender(a, c);
          WritingMore(ret[..t], c, whole, "</" + a.nodes[Back(c).x].name + ">", Back(c));
          c := Back(c);
        }
        y := d.nodes[y].parent;
        level := level - 1;
        if level >= 0 {
          t := WriteClose(ret, t, d.nodes[y].name);
        }
        if level < 1 {
          break;
        }
        dir := 1;
      }
    }
    WritingDone(ret[..t], c, whole);
  }

  lemma WritingStarts(x: int, tree: Tree)
    ensures Writing("", Start(x, tree), Print(tree))
  {
    RenderIsPrint(tree);
    assert Events(tree) + [] == Events(tree);
    assert "" + Render(Events(tree)) == Render(Events(tree));
  }

  lemma WritingSame(written: string, c: Cursor, whole: string, d: Cursor)
    requires Writing(written, c, whole) && Todo(d) == Todo(c)
    ensures Writing(written, d, whole)
  {
  }

  lemma WritingDone(written: string, c: Cursor, whole: string)
    requires Writing(written, c, whole) && Render(Todo(c)) == ""
    ensures written == whole
  {
    assert written + "" == written;
  }

  /** What iks_string returns: a cdata node at the top is not escaped, and ends with NUL only in a stack. */
  function Printed(tree: Tree, pooled: bool): string {
    match tree
    case Cdata(text) => if pooled then text + "\0" else text
    case Element(_, _, _) => Print(tree) + "\0"
  }

  /** iks_string: the text of a cdata node as it is; for a tag exactly the recursive print of the tree
      below it, whatever its siblings, in a buffer the first pass has sized to the byte. */
  method IksString(d: Doc, x: int, pooled: bool, ghost tree: Tree) returns (ret: array?<char>)
    requires d.Valid() && (x == NULL || Represents(d.Value(), x, tree, 0, |d.nodes|))
    ensures x == NULL <==> ret == null
    ensures x != NULL ==> fresh(ret) && ret[..] == Printed(tree, pooled)
  {
    hide Arena.Linked, Print;
    if x == NULL {
      return null;
    }
    if d.nodes[x].kind == CdataNode {
      var text := if pooled then d.nodes[x].text + "\0" else d.nodes[x].text;
      ret := new char[|text|];
      var t := MyStrcat(ret, 0, text);
      assert ret[..0] == "" && ret[..t] == ret[..];
      return;
    }
    var size := StringSize(d, x, tree);
    ret := new char[size + 1];
    var t := WriteString(d, x, ret, tree);
    ret[t] := '\0';
    assert ret[..t + 1] == ret[..];
  }
}
