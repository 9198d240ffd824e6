/** The base of every SLD/OGC element: the configuration record, the fixed
    namespace prefixes, the element-to-tree rule of `etree` and the
    `no_xmlns` post-processing of `xml`. The serialiser that turns a tree
    into text is a parameter. */
module SldBase {
  import opened Wrappers
  import opened PyValues

  // ================================================================ config

  const GeoserverPostgis: string := "geoserver_postgis"
  const GeoserverInline: string := "geoserver_inline"

  /** `sld_ver in (1, 2)`: Python compares numerically, so 1.0, 2.0 and
      True (which equals 1) are accepted as well. */
  predicate IsSldVersion(v: Value)
  {
    match v
    case Int(i) => i == 1 || i == 2
    case Bool(b) => b
    case Float(d) => d == Finite(1.0) || d == Finite(2.0)
    case _ => false
  }

  /** Which values pass the version check: the numbers 1 and 2 in any
      numeric type, and True; not False, not the text '1'. */
  lemma SldVersionValues(v: Value)
    ensures IsSldVersion(v) ==> v.Int? || v.Bool? || v.Float?
    ensures IsSldVersion(Int(1)) && IsSldVersion(Int(2)) && !IsSldVersion(Int(3))
    ensures IsSldVersion(Bool(true)) && !IsSldVersion(Bool(false))
    ensures IsSldVersion(Float(Finite(2.0))) && !IsSldVersion(Str("1")) && !IsSldVersion(Null)
  {
  }

  class SldConfig {
    var sldVer: Value
    var zeroLengthStringIsNull: bool

    constructor Init(ver: Value, zeroIsNull: bool)
      ensures sldVer == ver && zeroLengthStringIsNull == zeroIsNull
    {
      sldVer := ver;
      zeroLengthStringIsNull := zeroIsNull;
    }
  }

  /** `SLDConfig(simulating, sld_ver)`: the version is checked first and a
      bad one raises ValueError; the inline-feature preset makes a
      zero-length string count as null, every other preset (known or not)
      leaves it off. */
  method NewSldConfig(simulating: string, sldVer: Value) returns (r: Result<SldConfig>)
    ensures r.Err? <==> !IsSldVersion(sldVer)
    ensures r.Err? ==> r.error == ValueError
    ensures r.Ok? ==> fresh(r.value) && r.value.sldVer == sldVer
    ensures r.Ok? ==> r.value.zeroLengthStringIsNull == (simulating == GeoserverInline)
  {
    if !IsSldVersion(sldVer) {
      return Err(ValueError);
    }
    var config := new SldConfig.Init(sldVer, false);
    if simulating == GeoserverPostgis {
    } else if simulating == GeoserverInline {
      config.zeroLengthStringIsNull := true;
    }
    r := Ok(config);
  }

  // ================================================================ etree

  /** The namespace prefixes every element knows. */
  const Namespaces: map<string, string> := map[
    "ogc" := "http://www.opengis.net/ogc",
    "sld" := "http://www.opengis.net/sld",
    "gml" := "http://www.opengis.net/gml"]

  /** The part of an element that `etree` renders: its namespace prefix and
      tag name, its text, its attributes and its children in order. */
  datatype Elem = Elem(nameSpace: string, tagName: string, text: Option<string>, attrib: map<string, string>, children: seq<Elem>)

  /** An ElementTree element: a tag of the form `{uri}name`, attributes,
      text and sub-elements. */
  datatype XmlNode = XmlNode(tag: string, attrib: map<string, string>, text: Option<string>, children: seq<XmlNode>)

  /** `f"{{{uri}}}{tagName}"`. */
  function Qualified(uri: string, tagName: string): (r: string)
    ensures |r| == |uri| + |tagName| + 2
    ensures r[0] == '{' && r[|uri| + 1] == '}' && r[1..|uri| + 1] == uri && r[|uri| + 2..] == tagName
  {
    "{" + uri + "}" + tagName
  }

  /** The text `etree` gives an element: only an element without children
      keeps its text, and only when it is not empty. */
  function RenderedText(e: Elem): (r: Option<string>)
    ensures r.Some? <==> e.children == [] && e.text.Some? && e.text.value != ""
    ensures r.Some? ==> r == e.text
  {
    if e.children == [] && e.text.Some? && e.text.value != "" then e.text else None
  }

  /** `etree()`: an unknown namespace prefix raises KeyError before any
      child is looked at; the children are rendered in order and the
      first failure is the element's. */
  function EtreeSpec(e: Elem): Result<XmlNode>
    decreases e, 1
  {
    if e.nameSpace !in Namespaces then Err(KeyError)
    else
      var kids :- EtreeAll(e.children);
      Ok(XmlNode(Qualified(Namespaces[e.nameSpace], e.tagName), e.attrib, RenderedText(e), kids))
  }

  /** The children rendered left to right. */
  function EtreeAll(cs: seq<Elem>): Result<seq<XmlNode>>
    decreases cs, 0
  {
    if cs == [] then Ok([])
    else
      var front :- EtreeAll(cs[..|cs| - 1]);
      var last :- EtreeSpec(cs[|cs| - 1]);
      Ok(front + [last])
  }

  /** A rendered tree has one sub-element per child, in the same order,
      each the rendering of that child. */
  lemma {:induction false} EtreeAllPointwise(cs: seq<Elem>)
    requires EtreeAll(cs).Ok?
    ensures |EtreeAll(cs).value| == |cs|
    ensures forall i :: 0 <= i < |cs| ==> EtreeSpec(cs[i]).Ok? && EtreeAll(cs).value[i] == EtreeSpec(cs[i]).value
    decreases |cs|
  {
    if cs != [] {
      var front := cs[..|cs| - 1];
      EtreeAllPointwise(front);
      assert forall i :: 0 <= i < |cs| - 1 ==> front[i] == cs[i];
    }
  }

  /** A rendering that fails has a failing child. */
  lemma {:induction false} EtreeAllFailsSomewhere(cs: seq<Elem>)
    requires EtreeAll(cs).Err?
    ensures exists i :: 0 <= i < |cs| && EtreeSpec(cs[i]).Err?
    decreases |cs|
  {
    var front := cs[..|cs| - 1];
    if EtreeAll(front).Err? {
      EtreeAllFailsSomewhere(front);
      var i :| 0 <= i < |front| && EtreeSpec(front[i]).Err?;
      assert front[i] == cs[i];
    } else {
      assert EtreeSpec(cs[|cs| - 1]).Err?;
    }
  }

  /** A failing child makes the whole rendering fail (with the first
      failure, left to right). */
  lemma {:induction false} EtreeAllFailsAt(cs: seq<Elem>, i: nat)
    requires i < |cs| && EtreeSpec(cs[i]).Err?
    ensures EtreeAll(cs).Err?
    decreases |cs|
  {
    if i < |cs| - 1 {
      assert cs[..|cs| - 1][i] == cs[i];
      EtreeAllFailsAt(cs[..|cs| - 1], i);
    }
  }

  lemma {:induction false} EtreeAllPrefixFails(cs: seq<Elem>, i: nat)
    requires i <= |cs| && EtreeAll(cs[..i]).Err?
    ensures EtreeAll(cs) == EtreeAll(cs[..i])
    decreases |cs| - i
  {
    if i < |cs| {
      assert cs[..i + 1][..i] == cs[..i];
      EtreeAllPrefixFails(cs, i + 1);
    } else {
      assert cs[..i] == cs;
    }
  }

  /** `etree()` as written: the element is made first, then each child's
      tree is appended in order, or else the text is set. */
  method Etree(e: Elem) returns (r: Result<XmlNode>)
    ensures r == EtreeSpec(e)
    decreases e
  {
    if e.nameSpace !in Namespaces {
      return Err(KeyError);
    }
    var node := XmlNode(Qualified(Namespaces[e.nameSpace], e.tagName), e.attrib, None, []);
    if e.children != [] {
      for i := 0 to |e.children|
        invariant EtreeAll(e.children[..i]) == Ok(node.children)
        invariant node == XmlNode(Qualified(Namespaces[e.nameSpace], e.tagName), e.attrib, None, node.children)
      {
        var child := Etree(e.children[i]);
        assert e.children[..i + 1][..i] == e.children[..i];
        if child.Err? {
          EtreeAllPrefixFails(e.children, i + 1);
          return Err(child.error);
        }
        node := node.(children := node.children + [child.value]);
      }
      assert e.children[..|e.children|] == e.children;
    } else if e.text.Some? && e.text.value != "" {
      node := node.(text := e.text);
    }
    r := Ok(node);
  }

  /** What `etree` promises: the tag is `{uri}name` for a known prefix,
      the attributes are the element's, the text follows the
      children-or-text rule and the sub-elements are the children's trees
      in order. */
  lemma EtreeShape(e: Elem)
    ensures EtreeSpec(e).Err? <==> e.nameSpace !in Namespaces || exists i :: 0 <= i < |e.children| && EtreeSpec(e.children[i]).Err?
    ensures EtreeSpec(e).Ok? ==>
      var t := EtreeSpec(e).value;
      t.tag == Qualified(Namespaces[e.nameSpace], e.tagName) && t.attrib == e.attrib && t.text == RenderedText(e)
      && |t.children| == |e.children|
      && forall i :: 0 <= i < |e.children| ==> t.children[i] == EtreeSpec(e.children[i]).value
  {
    if e.nameSpace in Namespaces {
      if EtreeAll(e.children).Ok? {
        EtreeAllPointwise(e.children);
      } else {
        EtreeAllFailsSomewhere(e.children);
      }
      if exists i :: 0 <= i < |e.children| && EtreeSpec(e.children[i]).Err? {
        var i :| 0 <= i < |e.children| && EtreeSpec(e.children[i]).Err?;
        EtreeAllFailsAt(e.children, i);
      }
    }
  }

  // ================================================================ xml

  /** The state of the `no_xmlns` loop: whether it is inside a tag, the
      text of the current (or last) tag, and the output so far. */
  datatype Scan = Scan(insideTag: bool, buffer: string, out: string)

  /** One character of the loop. `strip` stands for the per-tag
      substitution that removes ` xmlns:…="…"` attributes. The buffer is
      emptied at `<` only, so a `>` outside any tag emits the last tag's
      text again. */
  function Step(st: Scan, c: char, strip: string -> string): (r: Scan)
  {
    if c == '<' then Scan(true, "", st.out + "<")
    else if c == '>' then Scan(false, st.buffer, st.out + strip(st.buffer) + ">")
    else if st.insideTag then Scan(true, st.buffer + [c], st.out)
    else Scan(false, st.buffer, st.out + [c])
  }

  /** The loop over the characters of s from state st. */
  function Run(st: Scan, s: string, strip: string -> string): Scan
    decreases |s|
  {
    if s == [] then st else Step(Run(st, s[..|s| - 1], strip), s[|s| - 1], strip)
  }

  const Start: Scan := Scan(false, "", "")

  /** The text `xml(no_xmlns=True)` returns for the serialised text s. */
  function StripSpec(s: string, strip: string -> string): string
  {
    Run(Start, s, strip).out
  }

  /** The `no_xmlns` loop as written. */
  method StripXmlns(s: string, strip: string -> string) returns (r: string)
    ensures r == StripSpec(s, strip)
  {
    var insideTag := false;
    var xml2 := "";
    var buffer := "";
    for i := 0 to |s|
      invariant Scan(insideTag, buffer, xml2) == Run(Start, s[..i], strip)
    {
      assert s[..i + 1][..i] == s[..i];
      var c := s[i];
      if c == '<' {
        insideTag := true;
        buffer := "";
        xml2 := xml2 + [c];
      } else if c == '>' {
        insideTag := false;
        xml2 := xml2 + strip(buffer);
        xml2 := xml2 + [c];
      } else {
        if insideTag {
          buffer := buffer + [c];
        } else {
          xml2 := xml2 + [c];
        }
      }
    }
    assert s[..|s|] == s;
    r := xml2;
  }

  /** The loop over a concatenation is the loop over the second part from
      where the first part left it. */
  lemma {:induction false} RunConcat(st: Scan, a: string, b: string, strip: string -> string)
    ensures Run(st, a + b, strip) == Run(Run(st, a, strip), b, strip)
    decreases |b|
  {
    if b == [] {
      assert a + b == a;
    } else {
      assert (a + b)[..|a + b| - 1] == a + b[..|b| - 1];
      RunConcat(st, a, b[..|b| - 1], strip);
    }
  }

  predicate NoDelimiter(t: string)
  {
    '<' !in t && '>' !in t
  }

  /** Text between tags is copied unchanged. */
  lemma {:induction false} TextCopied(st: Scan, t: string, strip: string -> string)
    requires !st.insideTag && NoDelimiter(t)
    ensures Run(st, t, strip) == Scan(false, st.buffer, st.out + t)
    decreases |t|
  {
    if t != [] {
      var front := t[..|t| - 1];
      assert NoDelimiter(front) by {
        assert forall c :: c in front ==> c in t;
      }
      TextCopied(st, front, strip);
      assert t[|t| - 1] in t;
      assert st.out + front + [t[|t| - 1]] == st.out + t;
    }
  }

  /** Inside a tag the characters only collect in the buffer. */
  lemma {:induction false} TagCollected(st: Scan, t: string, strip: string -> string)
    requires st.insideTag && NoDelimiter(t)
    ensures Run(st, t, strip) == Scan(true, st.buffer + t, st.out)
    decreases |t|
  {
    if t != [] {
      var front := t[..|t| - 1];
      assert NoDelimiter(front) by {
        assert forall c :: c in front ==> c in t;
      }
      TagCollected(st, front, strip);
      assert t[|t| - 1] in t;
      assert st.buffer + front + [t[|t| - 1]] == st.buffer + t;
    }
  }

  /** A whole tag outside any other: `<`, then the tag's text as `strip`
      leaves it, then `>`. */
  lemma TagStripped(st: Scan, t: string, strip: string -> string)
    requires !st.insideTag && NoDelimiter(t)
    ensures Run(st, "<" + t + ">", strip) == Scan(false, t, st.out + "<" + strip(t) + ">")
  {
    RunConcat(st, "<", t + ">", strip);
    assert Run(st, "<", strip) == Scan(true, "", st.out + "<") by {
      assert "<"[..0] == [];
    }
    RunConcat(Scan(true, "", st.out + "<"), t, ">", strip);
    TagCollected(Scan(true, "", st.out + "<"), t, strip);
    assert "" + t == t;
    assert ">"[..0] == [];
    assert "<" + t + ">" == "<" + (t + ">");
  }

  /** A serialised document: text and tags, none holding a delimiter. */
  datatype Piece = Text(t: string) | Tag(t: string)

  function Render(ps: seq<Piece>): string
  {
    if ps == [] then ""
    else Render(ps[..|ps| - 1]) + (match ps[|ps| - 1] case Text(t) => t case Tag(t) => "<" + t + ">")
  }

  /** The same document with `strip` applied inside every tag. */
  function Stripped(ps: seq<Piece>, strip: string -> string): string
  {
    if ps == [] then ""
    else Stripped(ps[..|ps| - 1], strip) + (match ps[|ps| - 1] case Text(t) => t case Tag(t) => "<" + strip(t) + ">")
  }

  predicate WellFormed(ps: seq<Piece>)
  {
    forall i :: 0 <= i < |ps| ==> NoDelimiter(ps[i].t)
  }

  lemma {:induction false} RunDocument(ps: seq<Piece>, strip: string -> string)
    requires WellFormed(ps)
    ensures !Run(Start, Render(ps), strip).insideTag
    ensures Run(Start, Render(ps), strip).out == Stripped(ps, strip)
    decreases |ps|
  {
    if ps != [] {
      var front := ps[..|ps| - 1];
      assert WellFormed(front) by {
        assert forall i :: 0 <= i < |front| ==> front[i] == ps[i];
      }
      RunDocument(front, strip);
      var st := Run(Start, Render(front), strip);
      var last := ps[|ps| - 1];
      assert NoDelimiter(last.t);
      match last
      case Text(t) =>
        RunConcat(Start, Render(front), t, strip);
        TextCopied(st, t, strip);
      case Tag(t) =>
        RunConcat(Start, Render(front), "<" + t + ">", strip);
        TagStripped(st, t, strip);
        assert st.out + "<" + strip(t) + ">" == st.out + ("<" + strip(t) + ">");
    }
  }

  /** On a well-formed document `no_xmlns` changes the inside of tags, by
      `strip`, and nothing else. */
  lemma StripOnlyTouchesTags(ps: seq<Piece>, strip: string -> string)
    requires WellFormed(ps)
    ensures StripSpec(Render(ps), strip) == Stripped(ps, strip)
  {
    RunDocument(ps, strip);
  }

  /** A `>` outside any tag repeats the last tag's stripped text. */
  lemma StrayCloseRepeatsTag(t: string, strip: string -> string)
    requires NoDelimiter(t)
    ensures StripSpec("<" + t + ">" + ">", strip) == "<" + strip(t) + ">" + strip(t) + ">"
  {
    RunConcat(Start, "<" + t + ">", ">", strip);
    TagStripped(Start, t, strip);
    assert ">"[..0] == [];
    assert "" + "<" + strip(t) + ">" == "<" + strip(t) + ">";
  }

  /** A tag that is never closed is dropped, all but its `<`. */
  lemma UnclosedTagDropped(t: string, strip: string -> string)
    requires NoDelimiter(t)
    ensures StripSpec("<" + t, strip) == "<"
  {
    RunConcat(Start, "<", t, strip);
    assert Run(Start, "<", strip) == Scan(true, "", "<") by {
      assert "<"[..0] == [];
    }
    TagCollected(Scan(true, "", "<"), t, strip);
  }

  /** `xml(no_xmlns)`: `validate()` runs first and its error is the
      result; then the tree is rendered and serialised by `render` (the
      stand-in for `ET.tostring`), and with `no_xmlns` the loop rewrites
      the text. */
  method Xml(e: Elem, noXmlns: bool, validation: Option<Error>, render: XmlNode -> string, strip: string -> string)
    returns (r: Result<string>)
    ensures validation.Some? ==> r == Err(validation.value)
    ensures validation.None? && EtreeSpec(e).Err? ==> r == Err(EtreeSpec(e).error)
    ensures validation.None? && EtreeSpec(e).Ok? && !noXmlns ==> r == Ok(render(EtreeSpec(e).value))
    ensures validation.None? && EtreeSpec(e).Ok? && noXmlns ==> r == Ok(StripSpec(render(EtreeSpec(e).value), strip))
  {
    if validation.Some? {
      return Err(validation.value);
    }
    var tree := Etree(e);
    if tree.Err? {
      return Err(tree.error);
    }
    var xml := render(tree.value);
    if noXmlns {
      xml := StripXmlns(xml, strip);
    }
    r := Ok(xml);
  }
}
