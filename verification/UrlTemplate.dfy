/**
 Fragment URL templates (section 5.3.9.4.4 of ISO/IEC 23009-1): the in-place replace loops of
 AampMPDUtils against one simultaneous substitution.
 */
module UrlTemplate {

  datatype Identifier = Bandwidth | RepresentationID | Number | Time

  function Name(k: Identifier): string
  {
    match k
    case Bandwidth => "Bandwidth"
    case RepresentationID => "RepresentationID"
    case Number => "Number"
    case Time => "Time"
  }

  /** A piece of a template: text without '$', an identifier, or the escape "$$". */
  datatype Token = Text(text: string) | Hole(k: Identifier) | Escape

  type Template = seq<Token>

  predicate Plain(s: string) { '$' !in s }

  ghost predicate WellFormed(t: Template) { forall i :: 0 <= i < |t| && t[i].Text? ==> Plain(t[i].text) }

  function RenderToken(tok: Token): string
  {
    match tok
    case Text(s) => s
    case Hole(k) => "$" + Name(k) + "$"
    case Escape => "$$"
  }

  function Render(t: Template): string
  {
    if t == [] then "" else Render(t[..|t| - 1]) + RenderToken(t[|t| - 1])
  }

  /** The template with identifier k filled in. */
  function Filled(t: Template, k: Identifier, value: string): (r: Template)
    ensures |r| == |t|
    ensures forall i :: 0 <= i < |t| ==> r[i] == if t[i] == Hole(k) then Text(value) else t[i]
  {
    seq(|t|, i requires 0 <= i < |t| => if t[i] == Hole(k) then Text(value) else t[i])
  }

  /** All identifiers filled in at once. */
  function Expanded(t: Template, values: map<Identifier, string>): (r: Template)
    ensures |r| == |t|
    ensures forall i :: 0 <= i < |t| ==>
              r[i] == if t[i].Hole? && t[i].k in values then Text(values[t[i].k]) else t[i]
  {
    seq(|t|, i requires 0 <= i < |t| => if t[i].Hole? && t[i].k in values then Text(values[t[i].k]) else t[i])
  }

  function Holes(t: Template, k: Identifier): nat
  {
    if t == [] then 0 else Holes(t[..|t| - 1], k) + (if t[|t| - 1] == Hole(k) then 1 else 0)
  }

  lemma RenderOne(tok: Token)
    ensures Render([tok]) == RenderToken(tok)
  {
    assert [tok][..0] == [];
    assert Render([tok]) == Render([tok][..0]) + RenderToken(tok);
    assert Render([tok][..0]) == "";
  }

  /** The identifiers as the standard writes them, and "$$" for a '$'. */
  lemma IdentifiersAsWritten()
    ensures Render([Hole(Bandwidth)]) == "$" + "Bandwidth" + "$"
    ensures Render([Hole(RepresentationID)]) == "$" + "RepresentationID" + "$"
    ensures Render([Hole(Number)]) == "$" + "Number" + "$"
    ensures Render([Hole(Time)]) == "$" + "Time" + "$"
    ensures Render([Escape]) == "$$"
  {
    hide Render;
    RenderOne(Hole(Bandwidth));
    RenderOne(Hole(RepresentationID));
    RenderOne(Hole(Number));
    RenderOne(Hole(Time));
    RenderOne(Escape);
  }

  // ---------------------------------------------------------------- strings

  /** std::string::find of '$' from pos; |s| stands for npos. */
  function Find(s: string, pos: nat): (r: nat)
    requires pos <= |s|
    ensures pos <= r <= |s| && (r < |s| ==> s[r] == '$') && forall j :: pos <= j < r ==> s[j] != '$'
    decreases |s| - pos
  {
    if pos == |s| || s[pos] == '$' then pos else Find(s, pos + 1)
  }

  /** std::string::substr, which stops at the end of the string. */
  function Substr(s: string, pos: nat, len: nat): string
    requires pos <= |s|
  {
    if pos + len <= |s| then s[pos..pos + len] else s[pos..]
  }

  // ---------------------------------------------------------------- where tokens are in a rendering

  /** Where token i starts in the rendering of t. */
  function Start(t: Template, i: nat): nat
    requires i <= |t|
  {
    |Render(t[..i])|
  }

  lemma RenderLast(t: Template)
    requires t != []
    ensures Render(t) == Render(t[..|t| - 1]) + RenderToken(t[|t| - 1])
  {
  }

  lemma {:induction false} RenderSplit(t: Template, i: nat)
    requires i <= |t|
    ensures Render(t) == Render(t[..i]) + Render(t[i..])
  {
    hide Render;
    if i == |t| {
      assert t[..i] == t;
      RenderEmpty();
      assert t[i..] == [];
    } else {
      var p, last := t[..|t| - 1], t[|t| - 1];
      RenderSplit(p, i);
      assert p[..i] == t[..i];
      RenderLast(t);
      RenderLast(t[i..]);
      assert t[i..][..|t| - i - 1] == p[i..];
      Associative(Render(t[..i]), Render(p[i..]), RenderToken(last));
    }
  }

  lemma RenderEmpty()
    ensures Render([]) == ""
  {
  }

  lemma Associative(a: string, b: string, c: string)
    ensures (a + b) + c == a + (b + c)
  {
  }

  lemma StartNext(t: Template, i: nat)
    requires i < |t|
    ensures Start(t, i + 1) == Start(t, i) + |RenderToken(t[i])|
  {
    RenderLast(t[..i + 1]);
    assert t[..i + 1][..i] == t[..i];
  }

  /** Token i, with what comes before and after it. */
  lemma RenderAround(t: Template, i: nat)
    requires i < |t|
    ensures Render(t) == Render(t[..i]) + RenderToken(t[i]) + Render(t[i + 1..])
  {
    hide Render;
    RenderSplit(t, i + 1);
    RenderLast(t[..i + 1]);
    assert t[..i + 1][..i] == t[..i];
  }

  lemma CharOfToken(t: Template, i: nat, c: nat)
    requires i < |t| && c < |RenderToken(t[i])|
    ensures Start(t, i) + c < |Render(t)| && Render(t)[Start(t, i) + c] == RenderToken(t[i])[c]
  {
    hide Render, RenderToken;
    RenderAround(t, i);
  }

  /** Between two tokens with only text between them there is no '$'. */
  lemma {:induction false} NoDollarInText(t: Template, i: nat, j: nat)
    requires i <= j <= |t| && WellFormed(t) && forall k :: i <= k < j ==> t[k].Text?
    ensures Start(t, i) <= Start(t, j) <= |Render(t)|
    ensures forall c :: Start(t, i) <= c < Start(t, j) ==> Render(t)[c] != '$'
  {
    hide Render;
    if i == j {
      RenderSplit(t, i);
    } else {
      NoDollarInText(t, i, j - 1);
      StartNext(t, j - 1);
      RenderAround(t, j - 1);
      forall c | Start(t, j - 1) <= c < Start(t, j) ensures Render(t)[c] != '$' {
        CharOfToken(t, j - 1, c - Start(t, j - 1));
      }
    }
  }

  /** The first token at or after i that is not text. */
  function NextMark(t: Template, i: nat): (j: nat)
    requires i <= |t|
    ensures i <= j <= |t| && (j < |t| ==> !t[j].Text?) && forall k :: i <= k < j ==> t[k].Text?
    decreases |t| - i
  {
    if i == |t| || !t[i].Text? then i else NextMark(t, i + 1)
  }

  lemma StartEnd(t: Template)
    ensures Start(t, |t|) == |Render(t)|
  {
    assert t[..|t|] == t;
  }

  /** find('$') from a token boundary arrives at the next identifier or escape, or at the end. */
  lemma FindMark(t: Template, i: nat)
    requires i <= |t| && WellFormed(t)
    ensures Start(t, i) <= |Render(t)| && Find(Render(t), Start(t, i)) == Start(t, NextMark(t, i))
  {
    hide Render;
    var j := NextMark(t, i);
    NoDollarInText(t, i, j);
    if j < |t| {
      CharOfToken(t, j, 0);
    } else {
      StartEnd(t);
    }
  }

  lemma NamesDiffer(k: Identifier, l: Identifier)
    ensures Plain(Name(k)) && |Name(k)| > 0
    ensures k != l ==> Name(k)[0] != Name(l)[0]
  {
  }

  /** The second '$' of an identifier or escape is its last character. */
  lemma FindClosing(t: Template, j: nat)
    requires j < |t| && !t[j].Text?
    ensures Start(t, j) + 1 <= |Render(t)| && Find(Render(t), Start(t, j) + 1) == Start(t, j + 1) - 1 < |Render(t)|
  {
    hide Render;
    StartNext(t, j);
    var tok := RenderToken(t[j]);
    CharOfToken(t, j, 0);
    CharOfToken(t, j, |tok| - 1);
    if t[j].Hole? { NamesDiffer(t[j].k, t[j].k); }
    assert forall c :: 1 <= c < |tok| - 1 ==> tok[c] != '$';
    forall c | Start(t, j) + 1 <= c < Start(t, j + 1) - 1 ensures Render(t)[c] != '$' {
      CharOfToken(t, j, c - Start(t, j));
    }
  }

  /** The comparison with the identifier's name succeeds exactly at that identifier. */
  lemma NameMatches(t: Template, j: nat, k: Identifier)
    requires j < |t| && !t[j].Text? && Start(t, j) + 1 <= |Render(t)|
    ensures Substr(Render(t), Start(t, j) + 1, |Name(k)|) == Name(k) <==> t[j] == Hole(k)
  {
    hide Render, Name;
    CharOfToken(t, j, 1);
    NamesDiffer(k, k);
    if t[j].Hole? {
      NamesDiffer(t[j].k, k);
      if t[j].k == k { NameFollowsMark(t, j); }
    }
  }

  lemma NameFollowsMark(t: Template, j: nat)
    requires j < |t| && t[j].Hole? && Start(t, j) + 1 <= |Render(t)|
    ensures Substr(Render(t), Start(t, j) + 1, |Name(t[j].k)|) == Name(t[j].k)
  {
    hide Render, Name;
    var k := t[j].k;
    RenderAround(t, j);
    NamesDiffer(k, k);
    forall c | 0 <= c < |Name(k)| ensures Render(t)[Start(t, j) + 1 + c] == Name(k)[c] {
      CharOfToken(t, j, c + 1);
    }
    CharOfToken(t, j, |Name(k)|);
  }

  /** Replacing the characters of an identifier replaces the token. */
  lemma Spliced(t: Template, j: nat, k: Identifier, value: string)
    requires j < |t| && t[j] == Hole(k)
    ensures Start(t, j) + |Name(k)| + 2 <= |Render(t)|
    ensures Render(t)[..Start(t, j)] + value + Render(t)[Start(t, j) + |Name(k)| + 2..] == Render(t[j := Text(value)])
  {
    hide Render, Name;
    RenderAround(t, j);
    RenderAround(t[j := Text(value)], j);
    assert t[j := Text(value)][..j] == t[..j];
    assert t[j := Text(value)][j + 1..] == t[j + 1..];
  }

  lemma {:induction false} HolesAfter(t: Template, j: nat, k: Identifier, value: string)
    requires j < |t| && t[j] == Hole(k)
    ensures Holes(t, k) > 0 && Holes(t[j := Text(value)], k) == Holes(t, k) - 1
  {
    var u := t[j := Text(value)];
    if j < |t| - 1 {
      HolesAfter(t[..|t| - 1], j, k, value);
      assert u[..|t| - 1] == t[..|t| - 1][j := Text(value)];
    } else {
      assert u[..|t| - 1] == t[..|t| - 1];
    }
  }

  lemma {:induction false} NoHoles(t: Template, k: Identifier)
    requires forall i :: 0 <= i < |t| ==> t[i] != Hole(k)
    ensures Holes(t, k) == 0
  {
    if t != [] { NoHoles(t[..|t| - 1], k); }
  }

  // ---------------------------------------------------------------- the code

  /**
   Both replace overloads, for a number already printed in decimal or for a string. The ghost
   template says how the input reads; the loop ends, counts the occurrences, and fills them in.
   */
  method Replace(input: string, k: Identifier, toString: string, ghost t: Template) returns (str: string, rc: nat)
    requires WellFormed(t) && Render(t) == input && Plain(toString)
    ensures str == Render(Filled(t, k, toString)) && rc == Holes(t, k)
  {
    hide Render, Start, Find, Substr, Name, Holes;
    str, rc := input, 0;
    var from := Name(k);
    ghost var u := t;
    var done := false;
    while !done
      invariant WellFormed(u) && Render(u) == str && rc + Holes(u, k) == Holes(t, k)
      invariant Filled(u, k, toString) == Filled(t, k, toString)
      invariant done ==> forall i :: 0 <= i < |u| ==> u[i] != Hole(k)
      decreases Holes(u, k), !done
    {
      done := true;
      var pos := 0;
      ghost var i := 0;
      StartZero(u);
      while true
        invariant 0 <= i <= |u| && pos == Start(u, i) <= |str| && Render(u) == str
        invariant forall m :: 0 <= m < i ==> u[m] != Hole(k)
        decreases |u| - i
      {
        FindMark(u, i);
        ghost var j := NextMark(u, i);
        pos := Find(str, pos);
        if pos == |str| {
          AtEnd(u, j);
          break;
        }
        NotAtEnd(u, j);
        FindClosing(u, j);
        var next := Find(str, pos + 1);
        NameMatches(u, j, k);
        if Substr(str, pos + 1, |from|) == from {
          Spliced(u, j, k, toString);
          HolesAfter(u, j, k, toString);
          str := str[..pos] + toString + str[pos + |from| + 2..];
          u := u[j := Text(toString)];
          done := false;
          rc := rc + 1;
          break;
        }
        pos := next + 1;
        i := j + 1;
        StartBound(u, i);
      }
    }
    NoHoles(u, k);
    assert Filled(u, k, toString) == u;
  }

  lemma StartZero(t: Template)
    ensures Start(t, 0) == 0
  {
  }

  lemma StartBound(t: Template, i: nat)
    requires i <= |t|
    ensures Start(t, i) <= |Render(t)|
  {
    RenderSplit(t, i);
  }

  /** A mark is not at the end of the string; the end has no mark. */
  lemma NotAtEnd(t: Template, j: nat)
    requires j <= |t| && Start(t, j) < |Render(t)|
    ensures j < |t|
  {
    StartEnd(t);
  }

  lemma AtEnd(t: Template, j: nat)
    requires j <= |t| && Start(t, j) == |Render(t)| && (j < |t| ==> !t[j].Text?)
    ensures j == |t|
  {
    if j < |t| {
      CharOfToken(t, j, 0);
    }
  }

  /** The four calls of ConstructFragmentURL, lines 475-478. */
  method Substitute(input: string, bandwidth: string, representationId: string, number: string, time: string, ghost t: Template)
    returns (url: string)
    requires WellFormed(t) && Render(t) == input
    requires Plain(bandwidth) && Plain(representationId) && Plain(number) && Plain(time)
    ensures url == Render(Expanded(t, map[Bandwidth := bandwidth, RepresentationID := representationId, Number := number, Time := time]))
  {
    hide Render, WellFormed;
    var rc;
    FillsStayWellFormed(t, bandwidth, representationId, number);
    FourFills(t, bandwidth, representationId, number, time);
    url, rc := Replace(input, Bandwidth, bandwidth, t);
    ghost var t1 := Filled(t, Bandwidth, bandwidth);
    url, rc := Replace(url, RepresentationID, representationId, t1);
    ghost var t2 := Filled(t1, RepresentationID, representationId);
    url, rc := Replace(url, Number, number, t2);
    url, rc := Replace(url, Time, time, Filled(t2, Number, number));
  }

  lemma FillsStayWellFormed(t: Template, b: string, r: string, n: string)
    requires WellFormed(t) && Plain(b) && Plain(r) && Plain(n)
    ensures var t1 := Filled(t, Bandwidth, b); var t2 := Filled(t1, RepresentationID, r);
            WellFormed(t1) && WellFormed(t2) && WellFormed(Filled(t2, Number, n))
  {
  }

  lemma FourFills(t: Template, b: string, r: string, n: string, i: string)
    ensures Filled(Filled(Filled(Filled(t, Bandwidth, b), RepresentationID, r), Number, n), Time, i) ==
            Expanded(t, map[Bandwidth := b, RepresentationID := r, Number := n, Time := i])
  {
  }

  /** Replacements one after the other, in the given order. */
  function FilledInOrder(t: Template, order: seq<Identifier>, values: map<Identifier, string>): Template
    requires forall k :: k in order ==> k in values
  {
    if order == [] then t
    else
      var last := order[|order| - 1];
      Filled(FilledInOrder(t, order[..|order| - 1], values), last, values[last])
  }

  /** Any order that names every identifier, repeated or not, gives the simultaneous substitution. */
  lemma {:induction false} OrderIsIrrelevant(t: Template, order: seq<Identifier>, values: map<Identifier, string>)
    requires forall k :: k in order <==> k in values
    ensures FilledInOrder(t, order, values) == Expanded(t, values)
  {
    FilledSoFar(t, order, values);
    assert forall i :: 0 <= i < |t| ==> FilledInOrder(t, order, values)[i] == Expanded(t, values)[i];
  }

  lemma {:induction false} FilledSoFar(t: Template, order: seq<Identifier>, values: map<Identifier, string>)
    requires forall k :: k in order ==> k in values
    ensures |FilledInOrder(t, order, values)| == |t|
    ensures forall i :: 0 <= i < |t| ==>
              FilledInOrder(t, order, values)[i] ==
                (if t[i].Hole? && t[i].k in order then Text(values[t[i].k]) else t[i])
  {
    if order != [] {
      var before, last := order[..|order| - 1], order[|order| - 1];
      FilledSoFar(t, before, values);
      assert forall k :: k in order <==> k in before || k == last;
    }
  }
}
