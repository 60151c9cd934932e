/**
 * The case- and accent-insensitive search pattern of functions/caseFuncs.go:
 * each search term is lower-cased, regex-escaped, and every accentable
 * letter is widened to a bracket class of its accented forms; the terms are
 * joined as alternatives and the pattern carries the option "i".
 *
 * The pattern functions take the accent map as a parameter; the source
 * always passes its package-level map, AccentsMap() here.
 */
module CaseFuncs {

  /** The bracket classes, one per base letter with its accented forms. */
  const AccentClasses: seq<string> := ["[aàáâã]", "[cç]", "[eéê]", "[ií]", "[oóôõ]", "[uú]"]

  /** The characters between the brackets. */
  function Interior(cls: string): string
    requires |cls| >= 2
  {
    cls[1..|cls| - 1]
  }

  /** Go's regexp.QuoteMeta escapes exactly these characters. */
  predicate IsMeta(c: char)
  {
    || c == '\\' || c == '.' || c == '+' || c == '*' || c == '?' || c == '(' || c == ')'
    || c == '|' || c == '[' || c == ']' || c == '{' || c == '}' || c == '^' || c == '$'
  }

  /** A bracket class whose interior holds no regex metacharacter. */
  ghost predicate IsAccentClass(cls: string)
  {
    && |cls| >= 2 && cls[0] == '[' && cls[|cls| - 1] == ']'
    && forall c :: c in Interior(cls) ==> !IsMeta(c)
  }

  ghost predicate AllClasses(classes: seq<string>)
  {
    forall k :: 0 <= k < |classes| ==> |classes[k]| >= 2
  }

  /** Each character of chars mapped to cls. */
  function Entries(chars: string, cls: string): (m: map<char, string>)
    ensures forall c :: c in m <==> c in chars
    ensures forall c :: c in m ==> m[c] == cls
  {
    map c | c in chars :: cls
  }

  /**
   * Every interior character mapped to its whole class; a later class
   * overrides an earlier one on a shared character.
   */
  function ClassMap(classes: seq<string>): map<char, string>
    requires AllClasses(classes)
  {
    if classes == [] then map[]
    else
      var last := classes[|classes| - 1];
      ClassMap(classes[..|classes| - 1]) + Entries(Interior(last), last)
  }

  /**
   * The package-level accentsMap: the class map of the six accent classes.
   * No metacharacter (in particular no backslash) is a key, so escapes pass
   * through the widening untouched, and every value is a bracket class.
   */
  function AccentsMap(): (m: map<char, string>)
    ensures SafeAccents(m)
  {
    AccentClassesWellFormed();
    ClassMapIsSafe(AccentClasses);
    ClassMap(AccentClasses)
  }

  /** The keys of the class map are exactly the interior characters. */
  lemma {:induction false} ClassMapKeys(classes: seq<string>, c: char)
    requires AllClasses(classes)
    ensures c in ClassMap(classes) <==> exists k :: 0 <= k < |classes| && c in Interior(classes[k])
  {
    if classes != [] {
      var init := classes[..|classes| - 1];
      ClassMapKeys(init, c);
      assert forall k :: 0 <= k < |init| ==> init[k] == classes[k];
    }
  }

  /** A character maps to the last class whose interior holds it. */
  lemma {:induction false} ClassMapAt(classes: seq<string>, k: nat, c: char)
    requires AllClasses(classes) && k < |classes| && c in Interior(classes[k])
    requires forall m :: k < m < |classes| ==> c !in Interior(classes[m])
    ensures c in ClassMap(classes) && ClassMap(classes)[c] == classes[k]
  {
    var init := classes[..|classes| - 1];
    if k < |classes| - 1 {
      ClassMapAt(init, k, c);
    }
  }

  /** Every value of the class map is one of the classes, and holds its key. */
  lemma {:induction false} ClassMapValues(classes: seq<string>, c: char)
    requires AllClasses(classes) && c in ClassMap(classes)
    ensures ClassMap(classes)[c] in classes
    ensures c in Interior(ClassMap(classes)[c])
  {
    var init := classes[..|classes| - 1];
    var last := classes[|classes| - 1];
    if c !in Interior(last) {
      ClassMapValues(init, c);
    }
  }

  /** A map whose keys are no metacharacters and whose values are accent classes. */
  ghost predicate SafeAccents(accents: map<char, string>)
  {
    forall c :: c in accents ==> !IsMeta(c) && IsAccentClass(accents[c])
  }

  /** Built from accent classes, the class map has no metacharacter as a key. */
  lemma ClassMapIsSafe(classes: seq<string>)
    requires forall k :: 0 <= k < |classes| ==> IsAccentClass(classes[k])
    ensures AllClasses(classes) && SafeAccents(ClassMap(classes))
  {
    forall c | c in ClassMap(classes)
      ensures !IsMeta(c) && IsAccentClass(ClassMap(classes)[c])
    {
      ClassMapValues(classes, c);
    }
  }

  lemma AccentClassesWellFormed()
    ensures forall k :: 0 <= k < |AccentClasses| ==> IsAccentClass(AccentClasses[k])
  {
    assert IsAccentClass(AccentClasses[0]);
  }

  /** The interiors of the six accent classes. */
  lemma AccentInteriors()
    ensures AllClasses(AccentClasses)
    ensures Interior(AccentClasses[0]) == "aàáâã"
    ensures Interior(AccentClasses[1]) == "cç"
    ensures Interior(AccentClasses[2]) == "eéê"
    ensures Interior(AccentClasses[3]) == "ií"
    ensures Interior(AccentClasses[4]) == "oóôõ"
    ensures Interior(AccentClasses[5]) == "uú"
  {
  }

  /** Example: 'á' widens to "[aàáâã]". */
  lemma AccentExampleA()
    ensures 'á' in AccentsMap() && AccentsMap()['á'] == "[aàáâã]"
  {
    AccentInteriors();
    ClassMapAt(AccentClasses, 0, 'á');
  }

  /** Example: 'ç' widens to "[cç]". */
  lemma AccentExampleC()
    ensures 'ç' in AccentsMap() && AccentsMap()['ç'] == "[cç]"
  {
    AccentInteriors();
    ClassMapAt(AccentClasses, 1, 'ç');
  }

  /** Example: 'b' has no accented forms. */
  lemma AccentExampleB()
    ensures 'b' !in AccentsMap()
  {
    AccentInteriors();
    forall k | 0 <= k < |AccentClasses|
      ensures 'b' !in Interior(AccentClasses[k])
    {
      var i := Interior(AccentClasses[k]);
      assert forall m :: 0 <= m < |i| ==> i[m] != 'b';
    }
    ClassMapKeys(AccentClasses, 'b');
  }

  /** Mapping one more character of s onto cls. */
  lemma MapClassSnoc(acc: map<char, string>, s: string, k: nat, cls: string)
    requires k < |s|
    ensures acc + Entries(s[..k + 1], cls) == (acc + Entries(s[..k], cls))[s[k] := cls]
  {
    assert s[..k + 1] == s[..k] + [s[k]];
  }

  /** The inner loop: every interior character of one class mapped to it. */
  method AddClass(acc: map<char, string>, cls: string) returns (res: map<char, string>)
    requires |cls| >= 2
    ensures res == acc + Entries(Interior(cls), cls)
  {
    var inner := cls[1..|cls| - 1];
    res := acc;
    for k := 0 to |inner|
      invariant res == acc + Entries(inner[..k], cls)
    {
      MapClassSnoc(acc, inner, k, cls);
      res := res[inner[k] := cls];
    }
    assert inner[..|inner|] == inner;
  }

  /** The nested loops that fill accentsMap at start-up, over the class list. */
  method FillClassMap(classes: seq<string>) returns (res: map<char, string>)
    requires AllClasses(classes)
    ensures res == ClassMap(classes)
  {
    res := map[];
    for s := 0 to |classes|
      invariant res == ClassMap(classes[..s])
    {
      res := AddClass(res, classes[s]);
      assert classes[..s + 1][..s] == classes[..s];
    }
    assert classes[..|classes|] == classes;
  }

  /**
   * strings.ToLower on one character, for ASCII and Latin-1: 'A'..'Z' and
   * 'À'..'Þ' except '×' move down by 32.
   */
  function LowerChar(c: char): (r: char)
    ensures !('A' <= r <= 'Z') && !('À' <= r <= 'Þ' && r != '×')
    ensures r == c || r as int == c as int + 32
    ensures IsMeta(r) <==> IsMeta(c)
  {
    if 'A' <= c <= 'Z' || ('À' <= c <= 'Þ' && c != '×') then (c as int + 32) as char else c
  }

  function ToLower(s: string): (r: string)
    ensures |r| == |s| && forall k :: 0 <= k < |s| ==> r[k] == LowerChar(s[k])
  {
    seq(|s|, k requires 0 <= k < |s| => LowerChar(s[k]))
  }

  /** One character as regexp.QuoteMeta writes it. */
  function Escape(c: char): string
  {
    if IsMeta(c) then ['\\', c] else [c]
  }

  /** regexp.QuoteMeta: a backslash before each metacharacter; dropping them gives s back. */
  function QuoteMeta(s: string): (q: string)
    ensures Unquote(q) == s
  {
    if s == [] then ""
    else
      UnquoteEscape(s[0], QuoteMeta(s[1..]));
      Escape(s[0]) + QuoteMeta(s[1..])
  }

  /** Reads a quoted string back: a backslash stands for the character after it. */
  function Unquote(q: string): string
    decreases |q|
  {
    if q == [] then ""
    else if q[0] == '\\' && |q| >= 2 then [q[1]] + Unquote(q[2..])
    else [q[0]] + Unquote(q[1..])
  }

  /** One escaped character reads back as itself. */
  lemma UnquoteEscape(c: char, rest: string)
    ensures Unquote(Escape(c) + rest) == [c] + Unquote(rest)
  {
    var q := Escape(c) + rest;
    if IsMeta(c) {
      assert q[0] == '\\' && q[1] == c && q[2..] == rest;
    } else {
      assert q[0] == c && q[1..] == rest;
    }
  }

  /** The inner loop's replacement of one character. */
  function Widen(accents: map<char, string>, c: char): string
  {
    if c in accents then accents[c] else [c]
  }

  /** Each character widened to its accent class, or kept as it is. */
  function Expand(accents: map<char, string>, s: string): string
  {
    if s == [] then "" else Widen(accents, s[0]) + Expand(accents, s[1..])
  }

  /** The pattern contributed by one search term. */
  function TermPattern(accents: map<char, string>, term: string): string
  {
    Expand(accents, QuoteMeta(ToLower(term)))
  }

  /** The terms' patterns joined by "|". */
  function Pattern(accents: map<char, string>, terms: seq<string>): string
  {
    if |terms| == 0 then ""
    else if |terms| == 1 then TermPattern(accents, terms[0])
    else TermPattern(accents, terms[0]) + "|" + Pattern(accents, terms[1..])
  }

  /** The primitive.Regex value the source returns under "$regex". */
  datatype Regex = Regex(pattern: string, options: string)

  lemma {:induction false} ExpandConcat(accents: map<char, string>, a: string, b: string)
    ensures Expand(accents, a + b) == Expand(accents, a) + Expand(accents, b)
  {
    if a != [] {
      assert a + b != [];
      assert (a + b)[0] == a[0];
      assert (a + b)[1..] == a[1..] + b;
      ExpandConcat(accents, a[1..], b);
    } else {
      assert a + b == b;
    }
  }

  lemma ExpandSnoc(accents: map<char, string>, s: string, k: nat)
    requires k < |s|
    ensures Expand(accents, s[..k + 1]) == Expand(accents, s[..k]) + Widen(accents, s[k])
  {
    assert s[..k + 1] == s[..k] + [s[k]];
    ExpandConcat(accents, s[..k], [s[k]]);
    assert Expand(accents, [s[k]]) == Widen(accents, s[k]) + Expand(accents, []);
  }

  lemma {:induction false} PatternSnoc(accents: map<char, string>, terms: seq<string>, t: string)
    requires |terms| >= 1
    ensures Pattern(accents, terms + [t]) == Pattern(accents, terms) + "|" + TermPattern(accents, t)
  {
    assert (terms + [t])[0] == terms[0];
    assert (terms + [t])[1..] == terms[1..] + [t];
    if |terms| > 1 {
      PatternSnoc(accents, terms[1..], t);
    }
  }

  /** Characters that are not keys of the map are copied unchanged. */
  lemma {:induction false} ExpandUnmapped(accents: map<char, string>, s: string)
    requires forall k :: 0 <= k < |s| ==> s[k] !in accents
    ensures Expand(accents, s) == s
  {
    if s != [] {
      ExpandUnmapped(accents, s[1..]);
    }
  }

  /** A string without metacharacters is its own quotation. */
  lemma {:induction false} QuoteMetaPlain(s: string)
    requires forall k :: 0 <= k < |s| ==> !IsMeta(s[k])
    ensures QuoteMeta(s) == s
  {
    if s != [] {
      QuoteMetaPlain(s[1..]);
    }
  }

  /**
   * A term whose lower-cased characters are neither metacharacters nor
   * accentable letters appears in the pattern as its lower-cased self.
   */
  lemma PlainTermIsLiteral(accents: map<char, string>, term: string)
    requires forall k :: 0 <= k < |term| ==> !IsMeta(LowerChar(term[k])) && LowerChar(term[k]) !in accents
    ensures TermPattern(accents, term) == ToLower(term)
  {
    QuoteMetaPlain(ToLower(term));
    ExpandUnmapped(accents, ToLower(term));
  }

  /**
   * Once escaped, a metacharacter passes the widening untouched: neither the
   * backslash nor the character is a key of a safe map.
   */
  lemma EscapeThenWiden(accents: map<char, string>, c: char)
    requires SafeAccents(accents)
    ensures Expand(accents, Escape(c)) == if IsMeta(c) then ['\\', c] else Widen(accents, c)
  {
    assert IsMeta('\\');
    if IsMeta(c) {
      assert Expand(accents, Escape(c)) == Widen(accents, '\\') + Expand(accents, [c]);
    }
  }

  /*
   * Reading a pattern back. An atom is an escape (a backslash and the next
   * character), a bracket class (up to its first ']') or one character; a
   * '|' outside every atom separates two alternatives.
   */

  /** The first index from k on that holds ']', or |p| when there is none. */
  function ClassEnd(p: string, k: nat): (e: nat)
    requires k <= |p|
    ensures k <= e <= |p|
    ensures e < |p| ==> p[e] == ']'
    ensures forall m :: k <= m < e ==> p[m] != ']'
    decreases |p| - k
  {
    if k == |p| || p[k] == ']' then k else ClassEnd(p, k + 1)
  }

  /** The length of the atom that starts p. */
  function AtomLength(p: string): (n: nat)
    requires p != []
    ensures 1 <= n <= |p|
  {
    if p[0] == '\\' && |p| >= 2 then 2
    else if p[0] == '[' then (if ClassEnd(p, 1) < |p| then ClassEnd(p, 1) + 1 else |p|)
    else 1
  }

  /** The top-level alternatives of a pattern; there is always at least one. */
  function Alternatives(p: string): (alts: seq<string>)
    ensures |alts| >= 1
    decreases |p|
  {
    if p == [] then [""]
    else if p[0] == '|' then [""] + Alternatives(p[1..])
    else
      var n := AtomLength(p);
      var rest := Alternatives(p[n..]);
      [p[..n] + rest[0]] + rest[1..]
  }

  /** x put in front of the first alternative. */
  function Prepend(x: string, alts: seq<string>): (r: seq<string>)
    requires |alts| >= 1
    ensures |r| == |alts| && r[0] == x + alts[0] && r[1..] == alts[1..]
  {
    [x + alts[0]] + alts[1..]
  }

  lemma PrependTwice(a: string, b: string, alts: seq<string>)
    requires |alts| >= 1
    ensures Prepend(a, Prepend(b, alts)) == Prepend(a + b, alts)
  {
    assert a + (b + alts[0]) == (a + b) + alts[0];
  }

  /** An atom in front of a pattern joins its first alternative. */
  lemma AtomFront(u: string, rest: string)
    requires u != [] && u[0] != '|' && AtomLength(u + rest) == |u|
    ensures Alternatives(u + rest) == Prepend(u, Alternatives(rest))
  {
    var p := u + rest;
    assert p[..|u|] == u && p[|u|..] == rest;
  }

  /** An accent class is one atom, whatever follows it. */
  lemma ClassAtom(cls: string, rest: string)
    requires IsAccentClass(cls)
    ensures AtomLength(cls + rest) == |cls|
  {
    var p := cls + rest;
    forall m | 1 <= m < |cls| - 1
      ensures p[m] != ']'
    {
      assert p[m] == cls[m] == Interior(cls)[m - 1];
      assert cls[m] in Interior(cls);
    }
    assert p[0] == '[' && p[|cls| - 1] == ']';
    assert ClassEnd(p, 1) == |cls| - 1;
  }

  /** The widened form of one escaped character is a single atom. */
  lemma EscapedAtom(accents: map<char, string>, c: char, rest: string)
    requires SafeAccents(accents)
    ensures Alternatives(Expand(accents, Escape(c)) + rest)
         == Prepend(Expand(accents, Escape(c)), Alternatives(rest))
  {
    EscapeThenWiden(accents, c);
    var u := Expand(accents, Escape(c));
    if IsMeta(c) {
      assert (u + rest)[0] == '\\' && |u + rest| >= 2;
    } else if c in accents {
      ClassAtom(u, rest);
    } else {
      assert (u + rest)[0] == c;
    }
    AtomFront(u, rest);
  }

  /** A quoted and widened string sits inside the first alternative. */
  lemma {:induction false} QuotedFront(accents: map<char, string>, s: string, rest: string)
    requires SafeAccents(accents)
    ensures Alternatives(Expand(accents, QuoteMeta(s)) + rest)
         == Prepend(Expand(accents, QuoteMeta(s)), Alternatives(rest))
    decreases |s|
  {
    var alts := Alternatives(rest);
    if s == [] {
      assert Expand(accents, QuoteMeta(s)) + rest == rest;
      assert "" + alts[0] == alts[0];
      assert [alts[0]] + alts[1..] == alts;
    } else {
      var u := Expand(accents, Escape(s[0]));
      var w := Expand(accents, QuoteMeta(s[1..]));
      ExpandConcat(accents, Escape(s[0]), QuoteMeta(s[1..]));
      assert Expand(accents, QuoteMeta(s)) + rest == u + (w + rest);
      EscapedAtom(accents, s[0], w + rest);
      QuotedFront(accents, s[1..], rest);
      PrependTwice(u, w, alts);
    }
  }

  /** A term's pattern sits inside the first alternative. */
  lemma TermFront(accents: map<char, string>, term: string, rest: string)
    requires SafeAccents(accents)
    ensures Alternatives(TermPattern(accents, term) + rest)
         == Prepend(TermPattern(accents, term), Alternatives(rest))
  {
    QuotedFront(accents, ToLower(term), rest);
  }

  /** A leading '|' closes an empty first alternative. */
  lemma BarFront(tail: string)
    ensures Alternatives("|" + tail) == [""] + Alternatives(tail)
  {
    assert ("|" + tail)[1..] == tail;
  }

  /** The pattern of each term, in order. */
  function TermPatterns(accents: map<char, string>, terms: seq<string>): (r: seq<string>)
    ensures |r| == |terms| && forall k :: 0 <= k < |terms| ==> r[k] == TermPattern(accents, terms[k])
  {
    seq(|terms|, k requires 0 <= k < |terms| => TermPattern(accents, terms[k]))
  }

  /**
   * The joined pattern splits back into exactly the terms' patterns: the
   * only top-level separators are the |terms| - 1 that the join adds.
   */
  lemma {:induction false} SplitPattern(accents: map<char, string>, terms: seq<string>)
    requires SafeAccents(accents) && |terms| >= 1
    ensures Alternatives(Pattern(accents, terms)) == TermPatterns(accents, terms)
  {
    if |terms| == 1 {
      SplitSingle(accents, terms);
    } else {
      SplitFirst(accents, terms);
      SplitPattern(accents, terms[1..]);
      TermPatternsCons(accents, terms);
    }
  }

  /** A single term is the only alternative. */
  lemma SplitSingle(accents: map<char, string>, terms: seq<string>)
    requires SafeAccents(accents) && |terms| == 1
    ensures Alternatives(Pattern(accents, terms)) == TermPatterns(accents, terms)
  {
    var t := TermPattern(accents, terms[0]);
    TermFront(accents, terms[0], "");
    assert t + "" == t;
  }

  lemma TermPatternsCons(accents: map<char, string>, terms: seq<string>)
    requires |terms| >= 1
    ensures TermPatterns(accents, terms) == [TermPattern(accents, terms[0])] + TermPatterns(accents, terms[1..])
  {
  }

  /** The first term of two or more is the first alternative on its own. */
  lemma SplitFirst(accents: map<char, string>, terms: seq<string>)
    requires SafeAccents(accents) && |terms| >= 2
    ensures Alternatives(Pattern(accents, terms))
         == [TermPattern(accents, terms[0])] + Alternatives(Pattern(accents, terms[1..]))
  {
    var t := TermPattern(accents, terms[0]);
    var tail := Pattern(accents, terms[1..]);
    assert Pattern(accents, terms) == t + ("|" + tail);
    TermFront(accents, terms[0], "|" + tail);
    BarFront(tail);
    var alts := [""] + Alternatives(tail);
    assert t + alts[0] == t && alts[1..] == Alternatives(tail);
  }

  /** The regex of ToCaseInsensitiveRegex has one top-level alternative per term. */
  lemma RegexAlternatives(terms: seq<string>)
    requires |terms| >= 1
    ensures Alternatives(Pattern(AccentsMap(), terms)) == TermPatterns(AccentsMap(), terms)
  {
    SplitPattern(AccentsMap(), terms);
  }

  /** The inner loop: appends each character of escaped, widened. */
  method AppendWidened(regex: string, accents: map<char, string>, escaped: string) returns (out: string)
    ensures out == regex + Expand(accents, escaped)
  {
    out := regex;
    for k := 0 to |escaped|
      invariant out == regex + Expand(accents, escaped[..k])
    {
      var ch := escaped[k];
      if ch in accents {
        out := out + accents[ch];
      } else {
        out := out + [ch];
      }
      ExpandSnoc(accents, escaped, k);
    }
    assert escaped[..|escaped|] == escaped;
  }

  /** The loop over the terms: each one lower-cased, escaped and widened, joined by "|". */
  method BuildPattern(accents: map<char, string>, terms: seq<string>) returns (regex: string)
    ensures regex == Pattern(accents, terms)
  {
    regex := "";
    for i := 0 to |terms|
      invariant regex == Pattern(accents, terms[..i])
    {
      if i != 0 {
        regex := regex + "|";
      }
      var escaped := QuoteMeta(ToLower(terms[i]));
      regex := AppendWidened(regex, accents, escaped);
      assert terms[..i + 1] == terms[..i] + [terms[i]];
      if i != 0 {
        PatternSnoc(accents, terms[..i], terms[i]);
      }
    }
    assert terms[..|terms|] == terms;
  }

  /** The filter value for a case- and accent-insensitive match of any of the terms. */
  method ToCaseInsensitiveRegex(terms: seq<string>) returns (r: Regex)
    ensures r.pattern == Pattern(AccentsMap(), terms)
    ensures |terms| == 0 ==> r.pattern == ""
    ensures r.options == "i"
  {
    // The source fills accentsMap once, when its package is initialised; the
    // model fills it here, and FillClassMap gives the same map on every call.
    var accents := FillClassMap(AccentClasses);
    var pattern := BuildPattern(accents, terms);
    r := Regex(pattern, "i");
  }
}
