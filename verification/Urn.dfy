/** The URN recogniser of gate exemption repair evidence, and the grammar it stands for:
    section 2 of RFC 8141 over the pchar of section 3.3 of RFC 3986. */
module Urn {
  import opened Common

  // ---------------------------------------------------------------- the recogniser

  predicate AlphaNumeric(c: char) {
    'a' <= c <= 'z' || 'A' <= c <= 'Z' || '0' <= c <= '9'
  }

  predicate Hex(c: char) {
    '0' <= c <= '9' || 'a' <= c <= 'f' || 'A' <= c <= 'F'
  }

  predicate PChar(c: char) {
    AlphaNumeric(c) || c in "-._~!$&'()*+,;=:@"
  }

  /** validURNComponent, read from the front. */
  predicate ComponentOk(s: string, slash: bool, question: bool) {
    if s == [] then true
    else if s[0] == '%' then |s| >= 3 && Hex(s[1]) && Hex(s[2]) && ComponentOk(s[3..], slash, question)
    else (PChar(s[0]) || (slash && s[0] == '/') || (question && s[0] == '?')) && ComponentOk(s[1..], slash, question)
  }

  /** The index loop. */
  method ValidComponent(s: string, slash: bool, question: bool) returns (ok: bool)
    ensures ok == ComponentOk(s, slash, question)
  {
    var i := 0;
    while i < |s|
      invariant i <= |s| && ComponentOk(s, slash, question) == ComponentOk(s[i..], slash, question)
      decreases |s| - i
    {
      var c := s[i];
      if c == '%' {
        if i + 2 >= |s| || !Hex(s[i + 1]) || !Hex(s[i + 2]) {
          return false;
        }
        assert s[i..][3..] == s[i + 3..];
        i := i + 3;
      } else if PChar(c) || (slash && c == '/') || (question && c == '?') {
        assert s[i..][1..] == s[i + 1..];
        i := i + 1;
      } else {
        return false;
      }
    }
    ok := true;
  }

  /** urnPCharPrefix: how much of s its first pchar takes; 0 when it has none. */
  function PrefixLength(s: string): (n: nat)
    ensures n <= |s|
  {
    if s == [] then 0
    else if s[0] == '%' then if |s| < 3 || !Hex(s[1]) || !Hex(s[2]) then 0 else 3
    else if PChar(s[0]) then 1 else 0
  }

  predicate HeadedOk(s: string, question: bool) {
    PrefixLength(s) > 0 && ComponentOk(s[PrefixLength(s)..], true, question)
  }

  /** The least index of one of the characters, |s| when there is none. */
  function First(s: string, cs: set<char>): (i: nat)
    ensures i <= |s| && (i < |s| ==> s[i] in cs) && forall k | 0 <= k < i :: s[k] !in cs
  {
    if s == [] then 0 else if s[0] in cs then 0 else 1 + First(s[1..], cs)
  }

  predicate PairAt(s: string, i: nat) {
    i + 1 < |s| && s[i] == '?' && s[i + 1] == '='
  }

  /** The least index of "?=", |s| when it does not occur. */
  function FirstPair(s: string): (i: nat)
    ensures i <= |s| && (i < |s| ==> PairAt(s, i)) && forall k | 0 <= k < i :: !PairAt(s, k)
  {
    if s == [] then 0
    else if PairAt(s, 0) then 0
    else
      var n := 1 + FirstPair(s[1..]);
      assert forall k | 0 < k < n :: PairAt(s, k) == PairAt(s[1..], k - 1);
      n
  }

  predicate NidOk(nid: string) {
    2 <= |nid| <= 32 && forall i | 0 <= i < |nid| :: AlphaNumeric(nid[i]) || (nid[i] == '-' && i != 0 && i != |nid| - 1)
  }

  predicate QueryOk(s: string) {
    var cut := First(s, {'#'});
    HeadedOk(s[..cut], true) && (cut < |s| ==> ComponentOk(s[cut + 1..], true, true))
  }

  predicate Opens(s: string, a: char, b: char) {
    |s| >= 2 && s[0] == a && s[1] == b
  }

  predicate OpensFragment(s: string) {
    s != [] && s[0] == '#'
  }

  predicate OptionalOk(s: string) {
    if s == [] then true
    else if OpensFragment(s) then ComponentOk(s[1..], true, true)
    else if Opens(s, '?', '=') then QueryOk(s[2..])
    else if !Opens(s, '?', '+') then false
    else ResolutionOk(s[2..])
  }

  function ResolutionEnd(s: string): (i: nat)
    ensures i <= |s|
  {
    if FirstPair(s) < First(s, {'#'}) then FirstPair(s) else First(s, {'#'})
  }

  /** What may follow the r-component. */
  predicate TrailingOk(s: string) {
    if s == [] then true
    else if Opens(s, '?', '=') then QueryOk(s[2..])
    else if OpensFragment(s) then ComponentOk(s[1..], true, true)
    else false
  }

  predicate ResolutionOk(s: string) {
    HeadedOk(s[..ResolutionEnd(s)], true) && TrailingOk(s[ResolutionEnd(s)..])
  }

  predicate FoldsToUrn(s: string)
    requires |s| == 4
  {
    s[0] in {'u', 'U'} && s[1] in {'r', 'R'} && s[2] in {'n', 'N'} && s[3] == ':'
  }

  predicate AssignedOk(s: string) {
    var end := First(s, {'?', '#'});
    HeadedOk(s[..end], false) && OptionalOk(s[end..])
  }

  /** validGateExemptionRepairURN. */
  predicate ValidUrn(s: string) {
    && |s| >= 4 && FoldsToUrn(s[..4])
    && var rest := s[4..];
       var cut := First(rest, {':'});
       cut < |rest| && NidOk(rest[..cut]) && rest[cut + 1..] != [] && AssignedOk(rest[cut + 1..])
  }

  // ---------------------------------------------------------------- the grammar

  predicate Unreserved(c: char) {
    'a' <= c <= 'z' || 'A' <= c <= 'Z' || '0' <= c <= '9' || c == '-' || c == '.' || c == '_' || c == '~'
  }

  predicate SubDelim(c: char) {
    c == '!' || c == '$' || c == '&' || c == '\'' || c == '(' || c == ')' || c == '*' || c == '+' || c == ','
    || c == ';' || c == '='
  }

  /** One terminal of the component rules: a character, or a percent escape. */
  datatype Unit = One(c: char) | Escaped(a: char, b: char) {
    function Text(): string {
      match this
      case One(c) => [c]
      case Escaped(a, b) => ['%', a, b]
    }

    /** pchar = unreserved / pct-encoded / sub-delims / ":" / "@" */
    predicate IsPChar() {
      match this
      case One(c) => Unreserved(c) || SubDelim(c) || c == ':' || c == '@'
      case Escaped(a, b) => Hex(a) && Hex(b)
    }

    predicate Allowed(question: bool) {
      IsPChar() || this == One('/') || (question && this == One('?'))
    }
  }

  function Text(units: seq<Unit>): string {
    if units == [] then [] else units[0].Text() + Text(units[1..])
  }

  /** *( pchar / "/" ) or *( pchar / "/" / "?" ) */
  ghost predicate Star(s: string, question: bool) {
    exists units: seq<Unit> :: Text(units) == s && forall i | 0 <= i < |units| :: units[i].Allowed(question)
  }

  /** pchar *( pchar / "/" ) or pchar *( pchar / "/" / "?" ) */
  ghost predicate Headed(s: string, question: bool) {
    exists first: Unit, rest :: s == first.Text() + rest && first.IsPChar() && Star(rest, question)
  }

  /** (alphanum) 0*30(alphanum / "-") (alphanum) */
  ghost predicate Nid(s: string) {
    && |s| >= 2 && AlphaNumeric(s[0]) && AlphaNumeric(s[|s| - 1]) && |s| - 2 <= 30
    && forall i | 1 <= i < |s| - 1 :: AlphaNumeric(s[i]) || s[i] == '-'
  }

  datatype Parts = Parts(nid: string, nss: string, r: Option<string>, q: Option<string>, f: Option<string>)

  function Fragment(f: Option<string>): string {
    if f.None? then [] else ['#'] + f.value
  }

  function Query(q: Option<string>, f: Option<string>): string {
    if q.None? then Fragment(f) else ['?', '='] + (q.value + Fragment(f))
  }

  /** [ "?+" r-component ] [ "?=" q-component ] [ "#" f-component ] */
  function Options(r: Option<string>, q: Option<string>, f: Option<string>): string {
    if r.None? then Query(q, f) else ['?', '+'] + (r.value + Query(q, f))
  }

  function Rendered(p: Parts): string {
    p.nid + ([':'] + (p.nss + Options(p.r, p.q, p.f)))
  }

  ghost predicate Grammatical(p: Parts) {
    && Nid(p.nid) && Headed(p.nss, false)
    && (p.r.Some? ==> Headed(p.r.value, true)) && (p.q.Some? ==> Headed(p.q.value, true))
    && (p.f.Some? ==> Star(p.f.value, true))
  }

  /** The reading in which the first "?=" ends the r-component. */
  ghost predicate NoPairInside(r: Option<string>) {
    r.Some? ==> forall i | 0 <= i < |r.value| :: !PairAt(r.value, i)
  }

  ghost predicate Derives(s: string, p: Parts) {
    |s| >= 4 && FoldsToUrn(s[..4]) && s[4..] == Rendered(p) && Grammatical(p)
  }

  // ---------------------------------------------------------------- components

  lemma SameCharacters(c: char)
    ensures PChar(c) == One(c).IsPChar() && !PChar('%')
  {
  }

  lemma TextCons(u: Unit, units: seq<Unit>)
    ensures Text([u] + units) == u.Text() + Text(units)
  {
    assert ([u] + units)[1..] == units;
  }

  lemma StarCons(u: Unit, s: string, question: bool)
    requires u.Allowed(question) && Star(s, question)
    ensures Star(u.Text() + s, question)
  {
    var units: seq<Unit> :| Text(units) == s && forall i | 0 <= i < |units| :: units[i].Allowed(question);
    TextCons(u, units);
    assert forall i | 0 <= i < |[u] + units| :: ([u] + units)[i].Allowed(question);
  }

  lemma {:induction false} OkIsStar(s: string, question: bool)
    requires ComponentOk(s, true, question)
    ensures Star(s, question)
    decreases |s|
  {
    if s == [] {
      assert Text([]) == s;
    } else if s[0] == '%' {
      OkIsStar(s[3..], question);
      StarCons(Escaped(s[1], s[2]), s[3..], question);
      assert s == Escaped(s[1], s[2]).Text() + s[3..];
    } else {
      SameCharacters(s[0]);
      OkIsStar(s[1..], question);
      StarCons(One(s[0]), s[1..], question);
      assert s == One(s[0]).Text() + s[1..];
    }
  }

  /** One unit more at the front does not change the verdict on the rest. */
  lemma UnitOk(u: Unit, s: string, question: bool)
    requires u.Allowed(question)
    ensures ComponentOk(u.Text() + s, true, question) == ComponentOk(s, true, question)
    ensures u.IsPChar() ==> PrefixLength(u.Text() + s) == |u.Text()|
  {
    match u
    case One(c) =>
      SameCharacters(c);
      assert ([c] + s)[1..] == s;
    case Escaped(a, b) => assert (['%', a, b] + s)[3..] == s;
  }

  lemma {:induction false} UnitsAreOk(units: seq<Unit>, question: bool)
    requires forall i | 0 <= i < |units| :: units[i].Allowed(question)
    ensures ComponentOk(Text(units), true, question)
  {
    if units != [] {
      UnitsAreOk(units[1..], question);
      UnitOk(units[0], Text(units[1..]), question);
    }
  }

  /** The loop recognises exactly the repetition. */
  lemma ComponentIsStar(s: string, question: bool)
    ensures ComponentOk(s, true, question) <==> Star(s, question)
  {
    if ComponentOk(s, true, question) {
      OkIsStar(s, question);
    }
    if Star(s, question) {
      var units: seq<Unit> :| Text(units) == s && forall i | 0 <= i < |units| :: units[i].Allowed(question);
      UnitsAreOk(units, question);
    }
  }

  function HeadUnit(s: string): Unit
    requires PrefixLength(s) > 0
  {
    if s[0] == '%' then Escaped(s[1], s[2]) else One(s[0])
  }

  lemma HeadedIsHeaded(s: string, question: bool)
    ensures HeadedOk(s, question) <==> Headed(s, question)
  {
    if HeadedOk(s, question) {
      var u, rest := HeadUnit(s), s[PrefixLength(s)..];
      SameCharacters(s[0]);
      assert s == u.Text() + rest;
      ComponentIsStar(rest, question);
      assert u.IsPChar() && Star(rest, question);
    }
    if Headed(s, question) {
      var first: Unit, rest :| s == first.Text() + rest && first.IsPChar() && Star(rest, question);
      UnitOk(first, rest, question);
      ComponentIsStar(rest, question);
      assert s[PrefixLength(s)..] == rest;
    }
  }

  lemma NidIsNid(s: string)
    ensures NidOk(s) <==> Nid(s)
  {
  }

  /** Components contain no '#', and without leave no '?'. */
  lemma {:induction false} NoDelimiters(s: string, question: bool)
    requires ComponentOk(s, true, question)
    ensures '#' !in s && (!question ==> '?' !in s)
    decreases |s|
  {
    if s != [] {
      var n := if s[0] == '%' then 3 else 1;
      NoDelimiters(s[n..], question);
      assert s == s[..n] + s[n..];
    }
  }

  lemma HeadedNoDelimiters(s: string, question: bool)
    requires HeadedOk(s, question)
    ensures '#' !in s && (!question ==> '?' !in s) && s != []
  {
    var n := PrefixLength(s);
    NoDelimiters(s[n..], question);
    assert s == s[..n] + s[n..];
  }

  // ---------------------------------------------------------------- cuts

  lemma Glued(a: string, b: string)
    ensures (a + b)[..|a|] == a && (a + b)[|a|..] == b
  {
  }

  lemma Cut(s: string, n: nat)
    requires n <= |s|
    ensures s == s[..n] + s[n..]
  {
  }

  lemma CutOne(s: string)
    requires s != []
    ensures s == [s[0]] + s[1..]
  {
  }

  lemma CutTwo(s: string)
    requires |s| >= 2
    ensures s == [s[0], s[1]] + s[2..]
  {
  }

  lemma PrefixedOne(a: char, t: string)
    ensures ([a] + t)[0] == a && ([a] + t)[1..] == t
  {
  }

  lemma PrefixedTwo(a: char, b: char, t: string)
    ensures Opens([a, b] + t, a, b) && ([a, b] + t)[2..] == t
  {
  }

  lemma FirstAtSeam(a: string, b: string, cs: set<char>)
    requires (forall c | c in a :: c !in cs) && (b == [] || b[0] in cs)
    ensures First(a + b, cs) == |a|
  {
    assert forall k | 0 <= k < |a| :: (a + b)[k] == a[k] && a[k] in a;
    assert b != [] ==> (a + b)[|a|] == b[0];
  }

  lemma FragmentStart(f: Option<string>)
    ensures Fragment(f) == [] || Fragment(f)[0] == '#'
    ensures f.Some? ==> Fragment(f) != [] && Fragment(f)[1..] == f.value
  {
    if f.Some? {
      PrefixedOne('#', f.value);
    }
  }

  lemma QueryStart(q: Option<string>, f: Option<string>)
    ensures q.Some? ==> Opens(Query(q, f), '?', '=') && Query(q, f)[2..] == q.value + Fragment(f)
    ensures q.None? ==> Query(q, f) == [] || OpensFragment(Query(q, f))
  {
    FragmentStart(f);
    if q.Some? {
      PrefixedTwo('?', '=', q.value + Fragment(f));
    }
  }

  lemma QueryIsQuery(q: string, f: Option<string>)
    requires HeadedOk(q, true) && (f.Some? ==> ComponentOk(f.value, true, true))
    ensures QueryOk(q + Fragment(f))
  {
    HeadedNoDelimiters(q, true);
    FragmentStart(f);
    FirstAtSeam(q, Fragment(f), {'#'});
    Glued(q, Fragment(f));
    if f.Some? {
      Tail(q, Fragment(f));
    }
  }

  lemma Tail(a: string, b: string)
    requires b != []
    ensures (a + b)[|a| + 1..] == b[1..]
  {
  }

  /** No "?=" starts inside r, not even one that would end in what follows it. */
  lemma NoPairAcross(r: string, tail: string, i: nat)
    requires NoPairInside(Some(r)) && i < |r| && (tail == [] || tail[0] != '=')
    ensures !PairAt(r + tail, i)
  {
    assert !PairAt(r, i);
  }

  lemma ResolutionAtSeam(r: string, q: Option<string>, f: Option<string>)
    requires HeadedOk(r, true) && NoPairInside(Some(r))
    ensures ResolutionEnd(r + Query(q, f)) == |r|
  {
    var tail := Query(q, f);
    var s := r + tail;
    QueryStart(q, f);
    HeadedNoDelimiters(r, true);
    forall i | 0 <= i < |r|
      ensures !PairAt(s, i) && s[i] != '#'
    {
      NoPairAcross(r, tail, i);
      assert s[i] in r;
    }
    if tail != [] {
      assert s[|r|] == tail[0];
      if q.Some? {
        assert s[|r| + 1] == tail[1];
        assert PairAt(s, |r|);
      }
    }
  }

  // ---------------------------------------------------------------- the recogniser accepts what derives

  /** Every component the recogniser looks at is well formed. */
  predicate OptionsOk(r: Option<string>, q: Option<string>, f: Option<string>) {
    && (r.Some? ==> HeadedOk(r.value, true)) && (q.Some? ==> HeadedOk(q.value, true))
    && (f.Some? ==> ComponentOk(f.value, true, true))
  }

  lemma QueryAccepted(q: Option<string>, f: Option<string>)
    requires OptionsOk(None, q, f)
    ensures TrailingOk(Query(q, f))
  {
    QueryStart(q, f);
    FragmentStart(f);
    if q.Some? {
      QueryIsQuery(q.value, f);
    }
  }

  lemma TrailingIsOptional(s: string)
    requires TrailingOk(s)
    ensures OptionalOk(s)
  {
  }

  lemma ResolutionAccepted(r: string, q: Option<string>, f: Option<string>)
    requires OptionsOk(Some(r), q, f) && NoPairInside(Some(r))
    ensures ResolutionOk(r + Query(q, f))
  {
    QueryAccepted(q, f);
    ResolutionAtSeam(r, q, f);
    Glued(r, Query(q, f));
  }

  lemma OptionsAccepted(r: Option<string>, q: Option<string>, f: Option<string>)
    requires OptionsOk(r, q, f) && NoPairInside(r)
    ensures OptionalOk(Options(r, q, f))
  {
    if r.Some? {
      ResolutionAccepted(r.value, q, f);
      PrefixedTwo('?', '+', r.value + Query(q, f));
    } else {
      QueryAccepted(q, f);
      TrailingIsOptional(Query(q, f));
    }
  }

  /** The optional part starts, if it is not empty, with one of its delimiters. */
  lemma OptionsStart(r: Option<string>, q: Option<string>, f: Option<string>)
    ensures Options(r, q, f) == [] || Options(r, q, f)[0] in {'?', '#'}
  {
    QueryStart(q, f);
  }

  lemma AssignedAccepted(nss: string, r: Option<string>, q: Option<string>, f: Option<string>)
    requires HeadedOk(nss, false) && OptionsOk(r, q, f) && NoPairInside(r)
    ensures AssignedOk(nss + Options(r, q, f)) && nss + Options(r, q, f) != []
  {
    OptionsAccepted(r, q, f);
    OptionsStart(r, q, f);
    HeadedNoDelimiters(nss, false);
    FirstAtSeam(nss, Options(r, q, f), {'?', '#'});
    Glued(nss, Options(r, q, f));
  }

  lemma NameAccepted(s: string, nid: string, name: string)
    requires |s| >= 4 && FoldsToUrn(s[..4]) && s[4..] == nid + ([':'] + name) && NidOk(nid) && name != []
             && AssignedOk(name)
    ensures ValidUrn(s)
  {
    PrefixedOne(':', name);
    assert forall c | c in nid :: c != ':';
    FirstAtSeam(nid, [':'] + name, {':'});
    Glued(nid, [':'] + name);
    Tail(nid, [':'] + name);
  }

  lemma GrammaticalOptions(p: Parts)
    ensures Grammatical(p) <==> NidOk(p.nid) && HeadedOk(p.nss, false) && OptionsOk(p.r, p.q, p.f)
  {
    NidIsNid(p.nid);
    HeadedIsHeaded(p.nss, false);
    if p.r.Some? {
      HeadedIsHeaded(p.r.value, true);
    }
    if p.q.Some? {
      HeadedIsHeaded(p.q.value, true);
    }
    if p.f.Some? {
      ComponentIsStar(p.f.value, true);
    }
  }

  lemma DerivedIsValid(s: string, p: Parts)
    requires Derives(s, p) && NoPairInside(p.r)
    ensures ValidUrn(s)
  {
    GrammaticalOptions(p);
    AssignedAccepted(p.nss, p.r, p.q, p.f);
    NameAccepted(s, p.nid, p.nss + Options(p.r, p.q, p.f));
  }

  // ---------------------------------------------------------------- what it accepts derives

  lemma QueryParsed(s: string) returns (q: Option<string>, f: Option<string>)
    requires Opens(s, '?', '=') && QueryOk(s[2..])
    ensures s == Query(q, f) && OptionsOk(None, q, f)
  {
    var t := s[2..];
    var cut := First(t, {'#'});
    CutTwo(s);
    Cut(t, cut);
    q := Some(t[..cut]);
    f := None;
    if cut < |t| {
      f := Some(t[cut + 1..]);
      CutOne(t[cut..]);
      assert t[cut..][1..] == t[cut + 1..];
    }
  }

  lemma FragmentParsed(s: string) returns (f: Option<string>)
    requires OpensFragment(s) && ComponentOk(s[1..], true, true)
    ensures s == Query(None, f) && OptionsOk(None, None, f)
  {
    CutOne(s);
    f := Some(s[1..]);
  }

  lemma TrailingParsed(s: string) returns (q: Option<string>, f: Option<string>)
    requires TrailingOk(s)
    ensures s == Query(q, f) && OptionsOk(None, q, f)
  {
    q, f := None, None;
    if s != [] {
      if Opens(s, '?', '=') {
        q, f := QueryParsed(s);
      } else {
        f := FragmentParsed(s);
      }
    }
  }

  lemma NoPairBefore(s: string, end: nat)
    requires end <= FirstPair(s)
    ensures NoPairInside(Some(s[..end]))
  {
    forall i | 0 <= i < end
      ensures !PairAt(s[..end], i)
    {
      assert !PairAt(s, i);
    }
  }

  lemma ResolutionParsed(s: string) returns (r: Option<string>, q: Option<string>, f: Option<string>)
    requires Opens(s, '?', '+') && ResolutionOk(s[2..])
    ensures s == Options(r, q, f) && OptionsOk(r, q, f) && NoPairInside(r)
  {
    var t := s[2..];
    var end := ResolutionEnd(t);
    q, f := TrailingParsed(t[end..]);
    r := Some(t[..end]);
    NoPairBefore(t, end);
    CutTwo(s);
    Cut(t, end);
  }

  lemma OptionalParsed(s: string) returns (r: Option<string>, q: Option<string>, f: Option<string>)
    requires OptionalOk(s)
    ensures s == Options(r, q, f) && OptionsOk(r, q, f) && NoPairInside(r)
  {
    if Opens(s, '?', '+') {
      r, q, f := ResolutionParsed(s);
    } else {
      r := None;
      q, f := TrailingParsed(s);
    }
  }

  lemma ValidIsDerived(s: string) returns (p: Parts)
    requires ValidUrn(s)
    ensures Derives(s, p) && NoPairInside(p.r)
  {
    var rest := s[4..];
    var cut := First(rest, {':'});
    var name := rest[cut + 1..];
    var end := First(name, {'?', '#'});
    var r, q, f := OptionalParsed(name[end..]);
    p := Parts(rest[..cut], name[..end], r, q, f);
    GrammaticalOptions(p);
    Cut(rest, cut);
    CutOne(rest[cut..]);
    assert rest[cut..][1..] == name;
    Cut(name, end);
  }

  /** The recogniser accepts exactly the strings the grammar derives under the reading
      in which the first "?=" ends the r-component. */
  lemma ValidUrnExactly(s: string)
    ensures ValidUrn(s) <==> exists p :: Derives(s, p) && NoPairInside(p.r)
  {
    if ValidUrn(s) {
      var p := ValidIsDerived(s);
    }
    if p :| Derives(s, p) && NoPairInside(p.r) {
      DerivedIsValid(s, p);
    }
  }

  lemma OptionsRefused(r: string)
    requires HeadedOk(r, true) && NoPairInside(Some(r))
    ensures !OptionalOk(Options(Some(r + ['?', '=']), None, None))
  {
    ResolutionAtSeam(r, Some([]), None);
    var s := r + Query(Some([]), None);
    assert Query(Some([]), None) == ['?', '='];
    Glued(r, ['?', '=']);
    PrefixedTwo('?', '+', s);
    assert s + Query(None, None) == s;
    assert !HeadedOk([], true) && ['?', '='][2..] == [];
    assert !QueryOk([]);
  }

  lemma AssignedAtSeam(nss: string, options: string)
    requires HeadedOk(nss, false) && (options == [] || options[0] in {'?', '#'})
    ensures AssignedOk(nss + options) == OptionalOk(options) && nss + options != []
  {
    HeadedNoDelimiters(nss, false);
    FirstAtSeam(nss, options, {'?', '#'});
    Glued(nss, options);
  }

  lemma NameAtSeam(s: string, nid: string, name: string)
    requires |s| >= 4 && FoldsToUrn(s[..4]) && s[4..] == nid + ([':'] + name) && NidOk(nid) && name != []
    ensures ValidUrn(s) == AssignedOk(name)
  {
    PrefixedOne(':', name);
    assert forall c | c in nid :: c != ':';
    FirstAtSeam(nid, [':'] + name, {':'});
    Glued(nid, [':'] + name);
    Tail(nid, [':'] + name);
  }

  /** The reading matters: a URN whose r-component ends in "?=" derives from the bare
      grammar, but the recogniser takes that end for the start of an empty q-component
      and refuses, whatever the rest of the URN. */
  lemma ReadingMatters(s: string, nid: string, nss: string, r: string)
    requires NidOk(nid) && HeadedOk(nss, false) && HeadedOk(r, true) && NoPairInside(Some(r))
    requires |s| >= 4 && FoldsToUrn(s[..4]) && s[4..] == Rendered(Parts(nid, nss, Some(r + ['?', '=']), None, None))
    ensures !ValidUrn(s) && exists p :: Derives(s, p)
  {
    var p := Parts(nid, nss, Some(r + ['?', '=']), None, None);
    HeadedGrows(r);
    GrammaticalOptions(p);
    assert Derives(s, p);
    OptionsStart(p.r, p.q, p.f);
    AssignedAtSeam(nss, Options(p.r, p.q, p.f));
    NameAtSeam(s, nid, nss + Options(p.r, p.q, p.f));
    OptionsRefused(r);
  }

  lemma HeadedGrows(r: string)
    requires HeadedOk(r, true)
    ensures HeadedOk(r + ['?', '='], true)
  {
    var n := PrefixLength(r);
    ComponentGrows(r[n..]);
    assert (r + ['?', '='])[n..] == r[n..] + ['?', '='];
  }

  lemma {:induction false} ComponentGrows(s: string)
    requires ComponentOk(s, true, true)
    ensures ComponentOk(s + ['?', '='], true, true)
    decreases |s|
  {
    var t := s + ['?', '='];
    if s == [] {
      assert t[1..] == ['='] && t[1..][1..] == [];
    } else {
      var n := if s[0] == '%' then 3 else 1;
      ComponentGrows(s[n..]);
      assert t[n..] == s[n..] + ['?', '='];
    }
  }
}
