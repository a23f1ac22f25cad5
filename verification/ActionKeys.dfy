/** Betting-tree keys: the string that names a betting history, and what can be read back from it. */
module ActionKeys {

  /** Invalid stands for an action type outside the three known ones. */
  datatype Action = Fold | Call | Raise(size: int) | Invalid

  type Street = seq<Action>

  // ----- decimal numbers -----

  function Digit(d: nat): char
    requires d < 10
  {
    ('0' as int + d) as char
  }

  predicate IsDigit(c: char) { '0' <= c <= '9' }

  predicate NumChar(c: char) { IsDigit(c) || c == '-' }

  function Decimal(n: nat): (s: string)
    ensures s != [] && forall i :: 0 <= i < |s| ==> IsDigit(s[i])
  {
    if n < 10 then [Digit(n)] else Decimal(n / 10) + [Digit(n % 10)]
  }

  function ToString(n: int): (s: string)
    ensures s != [] && forall i :: 0 <= i < |s| ==> NumChar(s[i])
  {
    if n < 0 then "-" + Decimal(-n) else Decimal(n)
  }

  function ParseNat(s: string): int {
    if s == [] then 0 else 10 * ParseNat(s[..|s| - 1]) + (s[|s| - 1] as int - '0' as int)
  }

  function ParseInt(s: string): int {
    if s != [] && s[0] == '-' then -ParseNat(s[1..]) else ParseNat(s)
  }

  lemma {:induction false} NatRoundTrip(n: nat)
    ensures ParseNat(Decimal(n)) == n
  {
    if n < 10 {
      assert [Digit(n)][..0] == [];
    } else {
      NatRoundTrip(n / 10);
      var front := Decimal(n / 10);
      assert (front + [Digit(n % 10)])[..|front|] == front;
    }
  }

  lemma IntRoundTrip(n: int)
    ensures ParseInt(ToString(n)) == n
  {
    if n < 0 {
      NatRoundTrip(-n);
      assert ("-" + Decimal(-n))[1..] == Decimal(-n);
    } else {
      NatRoundTrip(n);
    }
  }

  // ----- one street -----

  function ActionStr(a: Action): string {
    match a
    case Fold => "f"
    case Call => "c"
    case Raise(size) => "r" + ToString(size)
    case Invalid => ""
  }

  function StreetStr(street: Street): string {
    if street == [] then "" else ActionStr(street[0]) + StreetStr(street[1..])
  }

  /** The actions that leave a trace. */
  function Known(street: Street): Street {
    if street == [] then [] else (if street[0].Invalid? then [] else [street[0]]) + Known(street[1..])
  }

  /** The longest prefix of number characters. */
  function Run(s: string): (n: nat)
    ensures n <= |s|
  {
    if s == [] || !NumChar(s[0]) then 0 else 1 + Run(s[1..])
  }

  lemma {:induction false} RunIs(a: string, b: string)
    requires (forall i :: 0 <= i < |a| ==> NumChar(a[i])) && (b == [] || !NumChar(b[0]))
    ensures Run(a + b) == |a|
  {
    if a == [] {
      assert a + b == b;
    } else {
      RunIs(a[1..], b);
      assert (a + b)[1..] == a[1..] + b;
    }
  }

  function ParseStreet(s: string): Street
    decreases |s|
  {
    if s == [] then []
    else if s[0] == 'f' then [Fold] + ParseStreet(s[1..])
    else if s[0] == 'c' then [Call] + ParseStreet(s[1..])
    else if s[0] == 'r' then
      var n := Run(s[1..]);
      [Raise(ParseInt(s[1..][..n]))] + ParseStreet(s[1..][n..])
    else []
  }

  lemma {:induction false} StreetChars(street: Street)
    ensures StreetStr(street) == [] || !NumChar(StreetStr(street)[0])
    ensures ' ' !in StreetStr(street)
  {
    if street != [] {
      StreetChars(street[1..]);
      var first := ActionStr(street[0]);
      assert ' ' !in first;
      if first == [] {
        assert StreetStr(street) == StreetStr(street[1..]);
      } else {
        assert StreetStr(street)[0] == first[0];
      }
    }
  }

  /** A street is read back but for its invalid actions. */
  lemma {:induction false} StreetRoundTrip(street: Street)
    ensures ParseStreet(StreetStr(street)) == Known(street)
  {
    if street != [] {
      StreetRoundTrip(street[1..]);
      FirstAction(street[0], street[1..]);
    }
  }

  lemma FirstAction(a: Action, rest: Street)
    ensures ParseStreet(ActionStr(a) + StreetStr(rest))
         == (if a.Invalid? then [] else [a]) + ParseStreet(StreetStr(rest))
  {
    var tail := StreetStr(rest);
    if a.Raise? {
      StreetChars(rest);
      ParseRaise(ToString(a.size), tail);
      IntRoundTrip(a.size);
      assert ActionStr(a) + tail == "r" + ToString(a.size) + tail;
    } else if a.Invalid? {
      assert ActionStr(a) + tail == tail;
    } else {
      ParseLetter(ActionStr(a), tail);
    }
  }

  lemma ParseLetter(letter: string, tail: string)
    requires letter == "f" || letter == "c"
    ensures ParseStreet(letter + tail) == [if letter == "f" then Fold else Call] + ParseStreet(tail)
  {
    assert (letter + tail)[1..] == tail;
  }

  lemma ParseRaise(num: string, tail: string)
    requires (forall i :: 0 <= i < |num| ==> NumChar(num[i])) && (tail == [] || !NumChar(tail[0]))
    ensures ParseStreet("r" + num + tail) == [Raise(ParseInt(num))] + ParseStreet(tail)
  {
    var s := "r" + num + tail;
    RunIs(num, tail);
    assert s[1..] == num + tail;
    assert s[1..][..|num|] == num && s[1..][|num|..] == tail;
  }

  // ----- the whole history -----

  /** The separator goes before every street but the first, when it has actions. */
  function Key(h: seq<Street>): string
    decreases |h|
  {
    if h == [] then ""
    else Key(h[..|h| - 1]) + (if |h| > 1 && h[|h| - 1] != [] then " " else "") + StreetStr(h[|h| - 1])
  }

  /** What the key tells: the first street, and the later streets that have actions. */
  function Parts(h: seq<Street>): (r: seq<Street>)
    requires h != []
    ensures r != []
    decreases |h|
  {
    if |h| == 1 then h
    else if h[|h| - 1] == [] then Parts(h[..|h| - 1])
    else Parts(h[..|h| - 1]) + [h[|h| - 1]]
  }

  function Strs(parts: seq<Street>): (r: seq<string>)
    ensures |r| == |parts| && forall i :: 0 <= i < |parts| ==> r[i] == StreetStr(parts[i])
  {
    seq(|parts|, i requires 0 <= i < |parts| => StreetStr(parts[i]))
  }

  function Join(ss: seq<string>): string {
    if ss == [] then "" else if |ss| == 1 then ss[0] else Join(ss[..|ss| - 1]) + " " + ss[|ss| - 1]
  }

  lemma {:induction false} KeyIsJoin(h: seq<Street>)
    requires h != []
    ensures Key(h) == Join(Strs(Parts(h)))
    decreases |h|
  {
    var last := |h| - 1;
    if |h| == 1 {
      assert Key(h[..0]) == "";
    } else {
      KeyIsJoin(h[..last]);
      if h[last] != [] {
        var front := Parts(h[..last]);
        assert Strs(front + [h[last]])[..|front|] == Strs(front);
      } else {
        assert StreetStr(h[last]) == "";
      }
    }
  }

  /** Cut at the last separator, again and again. */
  function LastSpace(s: string): (i: int)
    ensures -1 <= i < |s|
    ensures i >= 0 ==> s[i] == ' '
    ensures forall j :: i < j < |s| ==> s[j] != ' '
  {
    if s == [] then -1 else if s[|s| - 1] == ' ' then |s| - 1 else LastSpace(s[..|s| - 1])
  }

  function Split(s: string): seq<string>
    decreases |s|
  {
    var i := LastSpace(s);
    if i < 0 then [s] else Split(s[..i]) + [s[i + 1..]]
  }

  lemma SplitLast(s: string, t: string)
    requires ' ' !in t
    ensures Split(s + " " + t) == Split(s) + [t]
  {
    var u := s + " " + t;
    assert u[|s|] == ' ' && u[..|s|] == s && u[|s| + 1..] == t;
    assert forall j :: |s| < j < |u| ==> u[j] == t[j - |s| - 1];
    assert LastSpace(u) == |s|;
  }

  lemma SplitWord(t: string)
    requires ' ' !in t
    ensures Split(t) == [t]
  {
    assert LastSpace(t) == -1;
  }

  lemma {:induction false} SplitJoin(ss: seq<string>)
    requires ss != [] && forall i :: 0 <= i < |ss| ==> ' ' !in ss[i]
    ensures Split(Join(ss)) == ss
    decreases |ss|
  {
    var last := |ss| - 1;
    if |ss| == 1 {
      SplitWord(ss[0]);
    } else {
      SplitJoin(ss[..last]);
      SplitLast(Join(ss[..last]), ss[last]);
      assert ss == ss[..last] + [ss[last]];
    }
  }

  function Decode(s: string): seq<Street> {
    var words := Split(s);
    seq(|words|, i requires 0 <= i < |words| => ParseStreet(words[i]))
  }

  function Knowns(parts: seq<Street>): (r: seq<Street>)
    ensures |r| == |parts| && forall i :: 0 <= i < |parts| ==> r[i] == Known(parts[i])
  {
    seq(|parts|, i requires 0 <= i < |parts| => Known(parts[i]))
  }

  /** What a key can tell is read back from it, for every history: invalid actions and empty streets
      after the first are lost, and nothing else, whatever the sign of the sizes. */
  lemma DecodeKey(h: seq<Street>)
    requires h != []
    ensures Decode(Key(h)) == Knowns(Parts(h))
  {
    var parts := Parts(h);
    KeyIsJoin(h);
    forall i | 0 <= i < |parts| ensures ' ' !in Strs(parts)[i] && ParseStreet(Strs(parts)[i]) == Known(parts[i]) {
      StreetChars(parts[i]);
      StreetRoundTrip(parts[i]);
    }
    SplitJoin(Strs(parts));
  }

  lemma KeyOfParts(h: seq<Street>, g: seq<Street>)
    requires h != [] && g != [] && Knowns(Parts(h)) == Knowns(Parts(g))
    ensures Key(h) == Key(g)
  {
    KeyIsJoin(h);
    KeyIsJoin(g);
    forall i | 0 <= i < |Parts(h)| ensures StreetStr(Parts(h)[i]) == StreetStr(Parts(g)[i]) {
      assert Knowns(Parts(h))[i] == Knowns(Parts(g))[i];
      KnownStr(Parts(h)[i]);
      KnownStr(Parts(g)[i]);
    }
    assert Strs(Parts(h)) == Strs(Parts(g));
  }

  lemma {:induction false} KnownStr(street: Street)
    ensures StreetStr(street) == StreetStr(Known(street))
  {
    if street != [] {
      KnownStr(street[1..]);
      var rest := Known(street[1..]);
      if !street[0].Invalid? { assert ([street[0]] + rest)[1..] == rest; } else { assert [] + rest == rest; }
    }
  }

  /** Two histories share a key iff they agree on what the key tells. */
  lemma SameKey(h: seq<Street>, g: seq<Street>)
    requires h != [] && g != []
    ensures Key(h) == Key(g) <==> Knowns(Parts(h)) == Knowns(Parts(g))
  {
    DecodeKey(h);
    DecodeKey(g);
    if Knowns(Parts(h)) == Knowns(Parts(g)) { KeyOfParts(h, g); }
  }

  // ----- histories of real hands -----

  /** Every action is of a known type, and no street with actions follows one without. */
  predicate Regular(h: seq<Street>) {
    && (forall st :: 0 <= st < |h| ==> Invalid !in h[st])
    && (forall st, later :: 0 <= st < later < |h| && h[st] == [] ==> h[later] == [])
  }

  /** A history without its trailing empty streets, but for the first street. */
  function Trim(h: seq<Street>): seq<Street>
    decreases |h|
  {
    if |h| > 1 && h[|h| - 1] == [] then Trim(h[..|h| - 1]) else h
  }

  lemma {:induction false} KnownAll(street: Street)
    requires Invalid !in street
    ensures Known(street) == street
  {
    if street != [] {
      assert street[0] in street;
      KnownAll(street[1..]);
    }
  }

  lemma {:induction false} FullParts(h: seq<Street>)
    requires h != [] && forall st :: 1 <= st < |h| ==> h[st] != []
    ensures Parts(h) == h
    decreases |h|
  {
    if |h| > 1 {
      FullParts(h[..|h| - 1]);
      assert h == h[..|h| - 1] + [h[|h| - 1]];
    }
  }

  lemma {:induction false} RegularParts(h: seq<Street>)
    requires h != [] && Regular(h)
    ensures Parts(h) == Trim(h) && forall st :: 0 <= st < |Trim(h)| ==> Invalid !in Trim(h)[st]
    decreases |h|
  {
    var last := |h| - 1;
    if |h| > 1 && h[last] == [] {
      RegularParts(h[..last]);
    } else {
      forall st | 1 <= st < |h| ensures h[st] != [] {}
      FullParts(h);
    }
  }

  /** Distinct regular histories, up to trailing empty streets, never share a key, and each is read
      back from its key. */
  lemma KeysUnique(h: seq<Street>, g: seq<Street>)
    requires h != [] && g != [] && Regular(h) && Regular(g)
    ensures Decode(Key(h)) == Trim(h)
    ensures Key(h) == Key(g) <==> Trim(h) == Trim(g)
  {
    RegularKnowns(h);
    RegularKnowns(g);
    DecodeKey(h);
    SameKey(h, g);
  }

  lemma RegularKnowns(h: seq<Street>)
    requires h != [] && Regular(h)
    ensures Knowns(Parts(h)) == Trim(h)
  {
    RegularParts(h);
    forall i | 0 <= i < |Parts(h)| ensures Known(Parts(h)[i]) == Parts(h)[i] { KnownAll(Parts(h)[i]); }
  }

  /** An empty street in the middle is lost. */
  lemma LostStreet()
    ensures Key([[Call], [], [Fold]]) == Key([[Call], [Fold], []])
  {
    var h, g := [[Call], [], [Fold]], [[Call], [Fold], []];
    assert h[..2] == [[Call], []] && h[..2][..1] == [[Call]] && g[..2] == [[Call], [Fold]] && g[..2][..1] == [[Call]];
    assert Parts([[Call], []]) == [[Call]];
    assert Parts([[Call], [Fold]]) == [[Call]] + [[Fold]];
    assert Parts(h) == [[Call]] + [[Fold]] == Parts(g);
    SameKey(h, g);
  }

  /** A space goes before the letters of every later street that has any action. */
  lemma KeyGrows(h: seq<Street>, street: Street)
    requires h != []
    ensures Key([street]) == StreetStr(street)
    ensures Key(h + [street]) == if street == [] then Key(h) else Key(h) + " " + StreetStr(street)
  {
    assert [street][..0] == [];
    assert (h + [street])[..|h|] == h;
  }

  lemma DecimalSample()
    ensures ToString(305) == "305" && ToString(-20) == "-20"
  {
    assert Decimal(3) == "3" && Decimal(30) == "30" && Decimal(2) == "2" && Decimal(20) == "20";
  }

  // ----- as the program builds it -----

  /** The largest amount raised to, at least the big blind. */
  ghost predicate IsBetTo(h: seq<Street>, n: int) {
    && n >= 2
    && (forall st, i :: 0 <= st < |h| && 0 <= i < |h[st]| && h[st][i].Raise? ==> h[st][i].size <= n)
    && (n == 2 || exists st, i :: 0 <= st < |h| && 0 <= i < |h[st]| && h[st][i] == Raise(n))
  }

  lemma StreetStrNext(street: Street, i: nat)
    requires i < |street|
    ensures StreetStr(street[..i + 1]) == StreetStr(street[..i]) + ActionStr(street[i])
  {
    StrAppend(street[..i], street[i]);
    assert street[..i + 1] == street[..i] + [street[i]];
  }

  lemma {:induction false} StrAppend(street: Street, a: Action)
    ensures StreetStr(street + [a]) == StreetStr(street) + ActionStr(a)
  {
    if street == [] {
      assert street + [a] == [a] && [a][1..] == [];
    } else {
      StrAppend(street[1..], a);
      assert (street + [a])[1..] == street[1..] + [a];
      Assoc(ActionStr(street[0]), StreetStr(street[1..]), ActionStr(a));
    }
  }

  lemma Assoc(a: string, b: string, c: string)
    ensures (a + b) + c == a + (b + c)
  {
  }

  lemma KeyNext(h: seq<Street>, st: nat)
    requires st < |h|
    ensures Key(h[..st + 1]) == Key(h[..st]) + (if st > 0 && h[st] != [] then " " else "") + StreetStr(h[st])
  {
    assert h[..st + 1][..st] == h[..st];
  }

  method GetActionSeq(h: seq<Street>) returns (key: string, betTo: int)
    requires h != []
    ensures key == Key(h) && IsBetTo(h, betTo)
  {
    key, betTo := "", 2;
    for st := 0 to |h|
      invariant key == Key(h[..st]) && betTo == MostOf(h[..st])
    {
      KeyNext(h, st);
      assert h[..st + 1][..st] == h[..st];
      var separator := if |h[st]| > 0 && st > 0 then " " else "";
      var s;
      s, betTo := AddStreet(h[st], betTo);
      key := key + separator + s;
    }
    assert h[..|h|] == h;
    MostOfIs(h);
  }

  function MostOf(h: seq<Street>): int {
    if h == [] then 2 else Most(h[|h| - 1], MostOf(h[..|h| - 1]))
  }

  lemma {:induction false} MostOfIs(h: seq<Street>)
    ensures IsBetTo(h, MostOf(h))
  {
    if h != [] {
      var last := |h| - 1;
      MostOfIs(h[..last]);
      MostIs(h[last], MostOf(h[..last]));
      BetToNext(h[..last], h[last], MostOf(h[..last]), MostOf(h));
      assert h == h[..last] + [h[last]];
    }
  }

  method GetSingleActionStr(a: Action) returns (s: string)
    ensures s == ActionStr(a)
    ensures ParseStreet(s) == if a.Invalid? then [] else [a]
    ensures a.Fold? ==> s == "f"
    ensures a.Call? ==> s == "c"
    ensures a.Raise? ==> |s| > 1 && s[0] == 'r' && s[1..] == ToString(a.size)
  {
    StreetRoundTrip([a]);
    assert StreetStr([a]) == ActionStr(a);
    match a
    case Fold => s := "f";
    case Call => s := "c";
    case Raise(size) => s := "r" + ToString(size);
    case Invalid => s := "";
  }

  /** The largest of betTo and the raises of a street. */
  function Most(street: Street, betTo: int): int {
    if street == [] then betTo
    else
      var m, a := Most(street[..|street| - 1], betTo), street[|street| - 1];
      if a.Raise? && a.size > m then a.size else m
  }

  lemma {:induction false} MostIs(street: Street, betTo: int)
    ensures Most(street, betTo) >= betTo && forall i :: 0 <= i < |street| && street[i].Raise? ==>
      street[i].size <= Most(street, betTo)
    ensures Most(street, betTo) == betTo || Raise(Most(street, betTo)) in street
  {
    if street != [] {
      var last := |street| - 1;
      MostIs(street[..last], betTo);
      assert street[last] in street && forall a :: a in street[..last] ==> a in street;
      forall i | 0 <= i < |street| && street[i].Raise? ensures street[i].size <= Most(street, betTo) {
        if i < last { assert street[..last][i] == street[i]; }
      }
    }
  }

  method AddStreet(street: Street, betTo: int) returns (s: string, most: int)
    ensures s == StreetStr(street) && most == Most(street, betTo)
  {
    s, most := "", betTo;
    for i := 0 to |street|
      invariant s == StreetStr(street[..i]) && most == Most(street[..i], betTo)
    {
      StreetStrNext(street, i);
      assert street[..i + 1][..i] == street[..i];
      var one := GetSingleActionStr(street[i]);
      s := s + one;
      if street[i].Raise? {
        if street[i].size > most { most := street[i].size; }
      }
    }
    assert street[..|street|] == street;
  }

  lemma BetToNext(h: seq<Street>, street: Street, betTo: int, most: int)
    requires IsBetTo(h, betTo) && most >= betTo && (most == betTo || Raise(most) in street)
    requires forall i :: 0 <= i < |street| && street[i].Raise? ==> street[i].size <= most
    ensures IsBetTo(h + [street], most)
  {
    var g: seq<Street> := h + [street];
    forall st, i | 0 <= st < |g| && 0 <= i < |g[st]| && g[st][i].Raise? ensures g[st][i].size <= most {
      if st < |h| { assert g[st] == h[st]; }
    }
    if most > betTo {
      var i :| 0 <= i < |street| && street[i] == Raise(most);
      assert g[|h|][i] == Raise(most);
    } else if betTo != 2 {
      var st, i :| 0 <= st < |h| && 0 <= i < |h[st]| && h[st][i] == Raise(betTo);
      assert g[st][i] == Raise(most);
    }
  }
}
