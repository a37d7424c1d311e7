/**
 The password generator (packages/vault/src/generator.ts): one character of each enabled class, the rest from all of
 them, then a shuffle in place. The random source is a tape of bytes.
 */
module Password {
  import opened Options
  import opened Bytes
  import opened Sampling
  import opened Shuffle

  const LOWERCASE: string := "abcdefghijklmnopqrstuvwxyz"
  const UPPERCASE: string := "ABCDEFGHIJKLMNOPQRSTUVWXYZ"
  const DIGITS: string := "0123456789"
  const SYMBOLS: string := "!#$%&()*+,-.:;<=>?@[]^_{|}~"

  datatype Settings = Settings(length: int, lowercase: bool, uppercase: bool, digits: bool, symbols: bool)

  function Enabled(o: Settings): (classes: seq<string>)
    ensures |classes| <= 4 && forall c | 0 <= c < |classes| :: |classes[c]| > 0
  {
    (if o.lowercase then [LOWERCASE] else []) + (if o.uppercase then [UPPERCASE] else [])
    + (if o.digits then [DIGITS] else []) + (if o.symbols then [SYMBOLS] else [])
  }

  function Union(classes: seq<string>): string {
    if classes == [] then "" else Union(classes[..|classes| - 1]) + classes[|classes| - 1]
  }

  lemma {:induction false} UnionHolds(classes: seq<string>, c: nat, x: char)
    requires c < |classes| && x in classes[c]
    ensures x in Union(classes)
  {
    if c < |classes| - 1 {
      UnionHolds(classes[..|classes| - 1], c, x);
    }
  }

  lemma {:induction false} UnionOnly(classes: seq<string>, x: char)
    requires x in Union(classes)
    ensures exists c :: 0 <= c < |classes| && x in classes[c]
  {
    var n := |classes| - 1;
    if x in classes[n] {
    } else {
      UnionOnly(classes[..n], x);
      var c :| 0 <= c < n && x in classes[..n][c];
      assert x in classes[c];
    }
  }

  // ----- draws off the tape

  /** How many values draw `k` chooses among: a class, then all of them, then the open positions of the shuffle. */
  function LimitAt(classes: seq<string>, length: nat, k: nat): (limit: nat)
    requires Usable(classes, length) && k < 2 * length - 1
    ensures limit >= 1
  {
    if k < |classes| then |classes[k]|
    else if k < length then UnionSize(classes); |Union(classes)|
    else 2 * length - k
  }

  ghost predicate Usable(classes: seq<string>, length: int) {
    0 < |classes| <= length && forall c | 0 <= c < |classes| :: |classes[c]| > 0
  }

  lemma {:induction false} UnionSize(classes: seq<string>)
    requires 0 < |classes| && forall c | 0 <= c < |classes| :: |classes[c]| > 0
    ensures |Union(classes)| > 0
  {
  }

  /** The first `n` draws, and the tape that is left. */
  function DrawFirst(classes: seq<string>, length: nat, n: nat, tape: seq<byte>): Option<(seq<nat>, seq<byte>)>
    requires Usable(classes, length) && n < 2 * length
    decreases n
  {
    if n == 0 then Some(([], tape))
    else
      match DrawFirst(classes, length, n - 1, tape)
      case None => None
      case Some((drawn, left)) =>
        var limit := LimitAt(classes, length, n - 1);
        match Drawn(limit, Width(limit), left)
        case None => None
        case Some((index, rest)) => Some((drawn + [index], rest))
  }

  /** Indices the draws can come to. */
  ghost predicate InLimits(classes: seq<string>, length: nat, drawn: seq<nat>)
    requires Usable(classes, length) && |drawn| < 2 * length
  {
    forall k | 0 <= k < |drawn| :: drawn[k] < LimitAt(classes, length, k)
  }

  lemma {:induction false} DrawnBelow(limit: nat, width: nat, tape: seq<byte>)
    requires limit >= 1 && width >= 1 && Drawn(limit, width, tape).Some?
    ensures Drawn(limit, width, tape).value.0 < limit
    decreases |tape|
  {
    if Draw(limit, tape[..width]).None? {
      DrawnBelow(limit, width, tape[width..]);
    }
  }

  lemma {:induction false} DrawFirstInLimits(classes: seq<string>, length: nat, n: nat, tape: seq<byte>)
    requires Usable(classes, length) && n < 2 * length && DrawFirst(classes, length, n, tape).Some?
    ensures |DrawFirst(classes, length, n, tape).value.0| == n
    ensures InLimits(classes, length, DrawFirst(classes, length, n, tape).value.0)
    decreases n
  {
    if n > 0 {
      DrawFirstInLimits(classes, length, n - 1, tape);
      var limit := LimitAt(classes, length, n - 1);
      DrawnBelow(limit, Width(limit), DrawFirst(classes, length, n - 1, tape).value.1);
    }
  }

  lemma {:induction false} StalledStays(classes: seq<string>, length: nat, n: nat, m: nat, tape: seq<byte>)
    requires Usable(classes, length) && n <= m < 2 * length && DrawFirst(classes, length, n, tape).None?
    ensures DrawFirst(classes, length, m, tape).None?
    decreases m
  {
    if n < m {
      StalledStays(classes, length, n, m - 1, tape);
    }
  }

  // ----- the password the draws make

  function PickedAt(classes: seq<string>, length: nat, k: nat, index: nat): char
    requires Usable(classes, length) && k < length && index < LimitAt(classes, length, k)
  {
    if k < |classes| then classes[k][index] else Union(classes)[index]
  }

  function Picked(classes: seq<string>, length: nat, drawn: seq<nat>): (s: string)
    requires Usable(classes, length) && length <= |drawn| < 2 * length && InLimits(classes, length, drawn)
    ensures |s| == length
  {
    seq(length, k requires 0 <= k < length => PickedAt(classes, length, k, drawn[k]))
  }

  function Assembled(classes: seq<string>, length: nat, drawn: seq<nat>): string
    requires Usable(classes, length) && length <= |drawn| < 2 * length && InLimits(classes, length, drawn)
  {
    ChoicesInLimits(classes, length, drawn);
    Shuffled(Picked(classes, length, drawn), length, drawn[length..])
  }

  lemma {:induction false} ChoicesInLimits(classes: seq<string>, length: nat, drawn: seq<nat>)
    requires Usable(classes, length) && length <= |drawn| < 2 * length && InLimits(classes, length, drawn)
    ensures Choices(length, drawn[length..])
  {
    forall m | 0 <= m < |drawn[length..]|
      ensures drawn[length..][m] < length - m
    {
      assert drawn[length + m] < LimitAt(classes, length, length + m);
    }
  }

  function GeneratedFrom(classes: seq<string>, length: int, tape: seq<byte>): Outcome<string>
    requires forall c | 0 <= c < |classes| :: |classes[c]| > 0
  {
    if classes == [] || length < |classes| then Threw
    else
      match DrawFirst(classes, length, 2 * length - 1, tape)
      case None => Unfinished
      case Some((drawn, _)) =>
        DrawFirstInLimits(classes, length, 2 * length - 1, tape);
        Returned(Assembled(classes, length, drawn))
  }

  function Generated(o: Settings, tape: seq<byte>): Outcome<string> {
    GeneratedFrom(Enabled(o), o.length, tape)
  }

  // ----- exactly the passwords the settings ask for

  /** The requested length, enabled characters only, and every enabled class present. */
  ghost predicate Meets(classes: seq<string>, length: int, w: string) {
    && |w| == length
    && (forall k | 0 <= k < |w| :: w[k] in Union(classes))
    && (forall c | 0 <= c < |classes| :: HasOne(classes[c], w))
  }

  /** Some character of the class is in the text. */
  ghost predicate HasOne(letters: string, w: string) {
    exists x :: x in letters && x in w
  }

  lemma {:induction false} HasThat(letters: string, w: string, k: nat)
    requires k < |w| && w[k] in letters
    ensures HasOne(letters, w)
  {
    assert w[k] in w;
  }

  lemma {:induction false} MultisetHolds(a: string, b: string, x: char)
    requires multiset(a) == multiset(b) && x in a
    ensures x in b
  {
    assert x in multiset(a);
  }

  lemma {:induction false} MeetsRearranged(classes: seq<string>, a: string, b: string)
    requires multiset(a) == multiset(b) && Meets(classes, |a|, a)
    ensures Meets(classes, |a|, b)
  {
    assert |multiset(a)| == |a| && |multiset(b)| == |b|;
    forall k | 0 <= k < |b|
      ensures b[k] in Union(classes)
    {
      MultisetHolds(b, a, b[k]);
    }
    forall c | 0 <= c < |classes|
      ensures HasOne(classes[c], b)
    {
      assert HasOne(classes[c], a);
      var x :| x in classes[c] && x in a;
      MultisetHolds(a, b, x);
    }
  }

  lemma {:induction false} PickedFromClass(classes: seq<string>, length: nat, drawn: seq<nat>, c: nat)
    requires Usable(classes, length) && length <= |drawn| < 2 * length && InLimits(classes, length, drawn)
             && c < |classes|
    ensures Picked(classes, length, drawn)[c] in classes[c]
  {
    var index := drawn[c];
    assert index < LimitAt(classes, length, c);
    assert Picked(classes, length, drawn)[c] == classes[c][index];
  }

  lemma {:induction false} PickedMeets(classes: seq<string>, length: nat, drawn: seq<nat>)
    requires Usable(classes, length) && length <= |drawn| < 2 * length && InLimits(classes, length, drawn)
    ensures Meets(classes, length, Picked(classes, length, drawn))
  {
    var s := Picked(classes, length, drawn);
    forall k | 0 <= k < length
      ensures s[k] in Union(classes)
    {
      if k < |classes| {
        UnionHolds(classes, k, s[k]);
      }
    }
    forall c | 0 <= c < |classes|
      ensures HasOne(classes[c], s)
    {
      PickedFromClass(classes, length, drawn, c);
      HasThat(classes[c], s, c);
    }
  }

  lemma {:induction false} AssembledMeets(classes: seq<string>, length: nat, drawn: seq<nat>)
    requires Usable(classes, length) && length <= |drawn| < 2 * length && InLimits(classes, length, drawn)
    ensures Meets(classes, length, Assembled(classes, length, drawn))
  {
    ChoicesInLimits(classes, length, drawn);
    PickedMeets(classes, length, drawn);
    ShufflePermutes(Picked(classes, length, drawn), length, drawn[length..]);
    MeetsRearranged(classes, Picked(classes, length, drawn), Assembled(classes, length, drawn));
  }

  ghost predicate Disjoint(classes: seq<string>) {
    forall a, b, x | 0 <= a < b < |classes| && x in classes[a] :: x !in classes[b]
  }

  /** An arrangement of the password with a character of each class in front, in class order. */
  lemma {:induction false} ClassesInFront(classes: seq<string>, w: string, n: nat)
    requires Disjoint(classes) && n <= |classes| && Meets(classes, |w|, w)
    ensures exists s: string :: multiset(s) == multiset(w) && n <= |s| && forall c | 0 <= c < n :: s[c] in classes[c]
  {
    if n == 0 {
      assert multiset(w) == multiset(w);
    } else {
      var c := n - 1;
      ClassesInFront(classes, w, c);
      var s: string :| multiset(s) == multiset(w) && c <= |s| && forall b | 0 <= b < c :: s[b] in classes[b];
      assert HasOne(classes[c], w);
      var x :| x in classes[c] && x in w;
      MultisetHolds(w, s, x);
      var q := Position(s, x);
      assert q >= c;
      SwapPermutes(s, c, q);
      var t := Swap(s, c, q);
      assert multiset(t) == multiset(w) && forall b | 0 <= b < n :: t[b] in classes[b];
    }
  }

  function Kind(x: char): nat {
    if 'a' <= x <= 'z' then 0 else if 'A' <= x <= 'Z' then 1 else if '0' <= x <= '9' then 2 else 3
  }

  ghost predicate OfKind(s: string, kind: nat) {
    forall k | 0 <= k < |s| :: Kind(s[k]) == kind
  }

  lemma {:induction false} KindsOfLetters()
    ensures OfKind(LOWERCASE, 0) && OfKind(UPPERCASE, 1)
  {
  }

  lemma {:induction false} KindsOfOthers()
    ensures OfKind(DIGITS, 2) && OfKind(SYMBOLS, 3)
  {
  }

  /** Letters of either case, digits, and the printable ASCII signs but quotes, slashes and the backquote. */
  predicate Allowed(o: Settings, x: char) {
    || (o.lowercase && 'a' <= x <= 'z')
    || (o.uppercase && 'A' <= x <= 'Z')
    || (o.digits && '0' <= x <= '9')
    || (o.symbols && '!' <= x <= '~' && Kind(x) == 3 && x !in "\"'/\\`")
  }

  lemma {:induction false} LowercaseAre(x: char)
    ensures x in LOWERCASE <==> 'a' <= x <= 'z'
  {
    KindsOfLetters();
    if 'a' <= x <= 'z' {
      assert LOWERCASE[x as int - 'a' as int] == x;
    }
  }

  lemma {:induction false} UppercaseAre(x: char)
    ensures x in UPPERCASE <==> 'A' <= x <= 'Z'
  {
    KindsOfLetters();
    if 'A' <= x <= 'Z' {
      assert UPPERCASE[x as int - 'A' as int] == x;
    }
  }

  lemma {:induction false} DigitsAre(x: char)
    ensures x in DIGITS <==> '0' <= x <= '9'
  {
    KindsOfOthers();
    if '0' <= x <= '9' {
      assert DIGITS[x as int - '0' as int] == x;
    }
  }

  lemma {:induction false} SymbolsAmong()
    ensures forall k | 0 <= k < |SYMBOLS| :: '!' <= SYMBOLS[k] <= '~' && SYMBOLS[k] !in "\"'/\\`"
  {
  }

  /** Where a sign stands among the symbols, which are in ASCII order. */
  function SymbolIndex(x: char): int {
    var n := x as int;
    if x == '!' then 0 else if x <= '&' then n - 34 else if x <= '.' then n - 35 else if x <= '@' then n - 46
    else if x == '[' then 19 else if x <= '_' then n - 73 else n - 100
  }

  lemma {:induction false} SymbolsAre(x: char)
    ensures x in SYMBOLS <==> '!' <= x <= '~' && Kind(x) == 3 && x !in "\"'/\\`"
  {
    KindsOfOthers();
    SymbolsAmong();
    if '!' <= x <= '~' && Kind(x) == 3 && x !in "\"'/\\`" {
      SymbolStands(x);
    }
  }

  lemma {:induction false} SymbolStands(x: char)
    requires '!' <= x <= '~' && Kind(x) == 3 && x !in "\"'/\\`"
    ensures 0 <= SymbolIndex(x) < |SYMBOLS| && SYMBOLS[SymbolIndex(x)] == x
  {
    assert x != '"' && x != '\'' && x != '/' && x != '\\' && x != '`' by {
      assert "\"'/\\`"[0] == '"' && "\"'/\\`"[1] == '\'' && "\"'/\\`"[2] == '/' && "\"'/\\`"[3] == '\\';
      assert "\"'/\\`"[4] == '`';
    }
  }

  lemma {:induction false} InUnionIff(classes: seq<string>, x: char)
    ensures x in Union(classes) <==> exists c :: 0 <= c < |classes| && x in classes[c]
  {
    if x in Union(classes) {
      UnionOnly(classes, x);
    }
    if exists c :: 0 <= c < |classes| && x in classes[c] {
      var c :| 0 <= c < |classes| && x in classes[c];
      UnionHolds(classes, c, x);
    }
  }

  ghost predicate SomeHolds(classes: seq<string>, x: char) {
    exists c :: 0 <= c < |classes| && x in classes[c]
  }

  lemma {:induction false} HoldsConcat(a: seq<string>, b: seq<string>, x: char)
    ensures SomeHolds(a + b, x) <==> SomeHolds(a, x) || SomeHolds(b, x)
  {
    if SomeHolds(a, x) {
      var c :| 0 <= c < |a| && x in a[c];
      assert x in (a + b)[c];
    }
    if SomeHolds(b, x) {
      var c :| 0 <= c < |b| && x in b[c];
      assert x in (a + b)[|a| + c];
    }
  }

  function Maybe(on: bool, s: string): seq<string> {
    if on then [s] else []
  }

  lemma {:induction false} MaybeHolds(on: bool, s: string, x: char)
    ensures SomeHolds(Maybe(on, s), x) <==> on && x in s
  {
    if on && x in s {
      assert x in [s][0];
    }
  }

  lemma {:induction false} FourHold(a: seq<string>, b: seq<string>, c: seq<string>, d: seq<string>, x: char)
    ensures SomeHolds(a + b + c + d, x) <==> SomeHolds(a, x) || SomeHolds(b, x) || SomeHolds(c, x) || SomeHolds(d, x)
  {
    HoldsConcat(a + b + c, d, x);
    HoldsConcat(a + b, c, x);
    HoldsConcat(a, b, x);
  }

  /** The characters a password is made of are exactly the ones the settings allow. */
  lemma {:induction false} DrawnFromAllowed(o: Settings, x: char)
    ensures x in Union(Enabled(o)) <==> Allowed(o, x)
  {
    InUnionIff(Enabled(o), x);
    FourHold(Maybe(o.lowercase, LOWERCASE), Maybe(o.uppercase, UPPERCASE), Maybe(o.digits, DIGITS),
             Maybe(o.symbols, SYMBOLS), x);
    MaybeHolds(o.lowercase, LOWERCASE, x);
    MaybeHolds(o.uppercase, UPPERCASE, x);
    MaybeHolds(o.digits, DIGITS, x);
    MaybeHolds(o.symbols, SYMBOLS, x);
    LowercaseAre(x);
    UppercaseAre(x);
    DigitsAre(x);
    SymbolsAre(x);
  }

  function Kinds(o: Settings): seq<nat> {
    (if o.lowercase then [0] else []) + (if o.uppercase then [1] else [])
    + (if o.digits then [2] else []) + (if o.symbols then [3] else [])
  }

  lemma {:induction false} KindsOfEnabled(o: Settings)
    ensures |Kinds(o)| == |Enabled(o)|
    ensures forall c | 0 <= c < |Enabled(o)| :: OfKind(Enabled(o)[c], Kinds(o)[c])
    ensures forall a, b | 0 <= a < b < |Kinds(o)| :: Kinds(o)[a] != Kinds(o)[b]
  {
    KindsOfLetters();
    KindsOfOthers();
  }

  lemma {:induction false} EnabledDisjoint(o: Settings)
    ensures Disjoint(Enabled(o))
  {
    KindsOfEnabled(o);
    var classes := Enabled(o);
    forall a, b, x | 0 <= a < b < |classes| && x in classes[a]
      ensures x !in classes[b]
    {
      assert OfKind(classes[a], Kinds(o)[a]) && OfKind(classes[b], Kinds(o)[b]);
    }
  }

  /** Indices that pick the first `n` characters of a string. */
  ghost predicate Picks(classes: seq<string>, s: string, picks: seq<nat>)
    requires Usable(classes, |s|)
  {
    && |picks| <= |s|
    && forall k | 0 <= k < |picks| ::
         picks[k] < LimitAt(classes, |s|, k) && PickedAt(classes, |s|, k, picks[k]) == s[k]
  }

  /** A character of each class in front, in class order, and enabled characters behind. */
  ghost predicate InFront(classes: seq<string>, s: string) {
    && |classes| <= |s|
    && (forall k | 0 <= k < |s| :: s[k] in Union(classes))
    && (forall c | 0 <= c < |classes| :: s[c] in classes[c])
  }

  lemma {:induction false} PicksFor(classes: seq<string>, s: string, n: nat)
    requires Usable(classes, |s|) && n <= |s| && InFront(classes, s)
    ensures exists picks: seq<nat> :: |picks| == n && Picks(classes, s, picks)
  {
    if n == 0 {
      assert Picks(classes, s, []);
    } else {
      var k := n - 1;
      PicksFor(classes, s, k);
      var picks: seq<nat> :| |picks| == k && Picks(classes, s, picks);
      var index := if k < |classes| then Position(classes[k], s[k]) else Position(Union(classes), s[k]);
      assert index < LimitAt(classes, |s|, k) && PickedAt(classes, |s|, k, index) == s[k];
      assert Picks(classes, s, picks + [index]);
    }
  }

  lemma {:induction false} JoinDraws(classes: seq<string>, length: nat, picks: seq<nat>, choices: seq<nat>, s: string)
    requires Usable(classes, length) && |picks| == length == |s| && Picks(classes, s, picks)
    requires |choices| == length && Choices(length, choices)
    ensures InLimits(classes, length, picks + choices[..length - 1])
    ensures Assembled(classes, length, picks + choices[..length - 1]) == Shuffled(s, length, choices)
  {
    var drawn := picks + choices[..length - 1];
    forall k | 0 <= k < |drawn|
      ensures drawn[k] < LimitAt(classes, length, k)
    {
      if k >= length {
        assert drawn[k] == choices[k - length];
      }
    }
    assert Picked(classes, length, drawn) == s;
    assert drawn[length..] == choices[..length - 1];
    var last := choices[length - 1];
    assert choices == choices[..length - 1] + [last];
    ShuffledSnoc(s, length, choices[..length - 1], last);
    assert last == 0;
  }

  lemma {:induction false} Rearranged(classes: seq<string>, w: string)
    requires Disjoint(classes) && Meets(classes, |w|, w) && |classes| <= |w|
    ensures exists s: string :: multiset(s) == multiset(w) && |s| == |w| && InFront(classes, s)
  {
    ClassesInFront(classes, w, |classes|);
    var s: string :| multiset(s) == multiset(w) && |classes| <= |s| && forall c | 0 <= c < |classes| ::
        s[c] in classes[c];
    MeetsRearranged(classes, w, s);
    assert InFront(classes, s);
  }

  lemma {:induction false} ArrangedAssembled(classes: seq<string>, s: string, w: string)
    requires Usable(classes, |w|) && multiset(s) == multiset(w) && |s| == |w| && InFront(classes, s)
    ensures exists drawn: seq<nat> ::
      |drawn| == 2 * |w| - 1 && InLimits(classes, |w|, drawn) && Assembled(classes, |w|, drawn) == w
  {
    var length := |w|;
    PicksFor(classes, s, length);
    var picks: seq<nat> :| |picks| == length && Picks(classes, s, picks);
    ShuffleOnto(s, w, length);
    var choices :| |choices| == length && Choices(length, choices) && Shuffled(s, length, choices) == w;
    JoinDraws(classes, length, picks, choices, s);
    assert |picks + choices[..length - 1]| == 2 * length - 1;
  }

  /** Every password that meets the settings comes of some draws. */
  lemma {:induction false} MeetsAssembled(classes: seq<string>, w: string)
    requires Usable(classes, |w|) && Disjoint(classes) && Meets(classes, |w|, w)
    ensures exists drawn: seq<nat> ::
      |drawn| == 2 * |w| - 1 && InLimits(classes, |w|, drawn) && Assembled(classes, |w|, drawn) == w
  {
    Rearranged(classes, w);
    var s: string :| multiset(s) == multiset(w) && |s| == |w| && InFront(classes, s);
    ArrangedAssembled(classes, s, w);
  }

  // ----- and every sequence of draws comes of some tape

  lemma {:induction false} TapeForOne(limit: nat, index: nat, rest: seq<byte>) returns (tape: seq<byte>)
    requires index < limit
    ensures Drawn(limit, Width(limit), tape) == Some((index, rest))
  {
    var width := Width(limit);
    EveryIndexEquallyOften(limit, width, index);
    var s :| s in Producing(limit, width, index);
    tape := s + rest;
    assert tape[..width] == s && tape[width..] == rest;
  }

  lemma {:induction false} TapeFor(classes: seq<string>, length: nat, drawn: seq<nat>, n: nat, rest: seq<byte>)
    returns (tape: seq<byte>)
    requires Usable(classes, length) && n <= |drawn| < 2 * length && InLimits(classes, length, drawn)
    ensures DrawFirst(classes, length, n, tape) == Some((drawn[..n], rest))
    decreases n
  {
    if n == 0 {
      tape := rest;
    } else {
      var left := TapeForOne(LimitAt(classes, length, n - 1), drawn[n - 1], rest);
      tape := TapeFor(classes, length, drawn, n - 1, left);
      assert drawn[..n] == drawn[..n - 1] + [drawn[n - 1]];
    }
  }

  lemma {:induction false} DrawsGenerate(
    classes: seq<string>, length: nat, n: nat, tape: seq<byte>, drawn: seq<nat>, rest: seq<byte>)
    requires Usable(classes, length) && n == |drawn| == 2 * length - 1 && InLimits(classes, length, drawn)
    requires DrawFirst(classes, length, n, tape) == Some((drawn, rest))
    ensures GeneratedFrom(classes, length, tape) == Returned(Assembled(classes, length, drawn))
  {
  }

  lemma {:induction false} SomeTapeGenerates(classes: seq<string>, w: string)
    requires Usable(classes, |w|) && Disjoint(classes) && Meets(classes, |w|, w)
    ensures exists tape :: GeneratedFrom(classes, |w|, tape) == Returned(w)
  {
    MeetsAssembled(classes, w);
    var drawn: seq<nat> :| |drawn| == 2 * |w| - 1 && InLimits(classes, |w|, drawn)
        && Assembled(classes, |w|, drawn) == w;
    var n := |drawn|;
    var tape := TapeFor(classes, |w|, drawn, n, []);
    assert drawn[..n] == drawn;
    DrawsGenerate(classes, |w|, n, tape, drawn, []);
  }

  /** Every finished password meets the settings. */
  lemma {:induction false} GeneratedMeets(classes: seq<string>, length: int, tape: seq<byte>)
    requires Usable(classes, length) && GeneratedFrom(classes, length, tape).Returned?
    ensures Meets(classes, length, GeneratedFrom(classes, length, tape).value)
  {
    var n := 2 * length - 1;
    DrawFirstInLimits(classes, length, n, tape);
    AssembledMeets(classes, length, DrawFirst(classes, length, n, tape).value.0);
  }

  /**
   Over all random sources, the passwords that can come out are exactly those of the requested length, of enabled
   characters, with every enabled class present.
   */
  lemma {:induction false} GeneratesExactly(o: Settings, w: string)
    requires Usable(Enabled(o), o.length)
    ensures (exists tape :: Generated(o, tape) == Returned(w)) <==> Meets(Enabled(o), o.length, w)
  {
    if tape :| Generated(o, tape) == Returned(w) {
      GeneratedMeets(Enabled(o), o.length, tape);
    }
    if Meets(Enabled(o), o.length, w) {
      EnabledDisjoint(o);
      SomeTapeGenerates(Enabled(o), w);
      var tape :| GeneratedFrom(Enabled(o), o.length, tape) == Returned(w);
      assert Generated(o, tape) == Returned(w);
    }
  }

  // ----- the generator

  /** One more draw, off the tape the earlier draws left. */
  lemma {:induction false} DrawOne(
    classes: seq<string>, length: nat, drawn: seq<nat>, limit: nat, tape: seq<byte>, left: seq<byte>, r: Outcome<nat>,
    rest: seq<byte>)
    requires Usable(classes, length) && |drawn| < 2 * length - 1 && limit == LimitAt(classes, length, |drawn|)
    requires DrawFirst(classes, length, |drawn|, tape) == Some((drawn, left)) && !r.Threw?
    requires r.Returned? ==> Drawn(limit, Width(limit), left) == Some((r.value, rest))
    requires r.Unfinished? ==> Drawn(limit, Width(limit), left) == None
    ensures r.Returned? ==> DrawFirst(classes, length, |drawn| + 1, tape) == Some((drawn + [r.value], rest))
    ensures r.Returned? ==> r.value < limit
    ensures r.Unfinished? ==> GeneratedFrom(classes, length, tape) == Unfinished
  {
    if r.Returned? {
      DrawnBelow(limit, Width(limit), left);
    } else {
      StalledStays(classes, length, |drawn| + 1, 2 * length - 1, tape);
    }
  }

  lemma {:induction false} InLimitsMore(classes: seq<string>, length: nat, drawn: seq<nat>, index: nat)
    requires Usable(classes, length) && |drawn| < 2 * length - 1 && InLimits(classes, length, drawn)
    requires index < LimitAt(classes, length, |drawn|)
    ensures InLimits(classes, length, drawn + [index])
  {
    forall k | 0 <= k < |drawn + [index]|
      ensures (drawn + [index])[k] < LimitAt(classes, length, k)
    {
      if k < |drawn| {
        assert drawn[k] < LimitAt(classes, length, k);
      }
    }
  }

  /** The draws so far: their indices, within their limits, and the tape they left. */
  ghost predicate Progress(classes: seq<string>, length: nat, tape: seq<byte>, drawn: seq<nat>, rest: seq<byte>)
    requires Usable(classes, length)
  {
    && |drawn| < 2 * length
    && InLimits(classes, length, drawn)
    && DrawFirst(classes, length, |drawn|, tape) == Some((drawn, rest))
  }

  method NextIndex(
    classes: seq<string>, length: nat, limit: nat, ghost tape: seq<byte>, ghost drawn: seq<nat>, left: seq<byte>)
    returns (r: Outcome<nat>, rest: seq<byte>)
    requires Usable(classes, length) && Progress(classes, length, tape, drawn, left) && |drawn| < 2 * length - 1
    requires limit == LimitAt(classes, length, |drawn|)
    ensures !r.Threw?
    ensures r.Returned? ==> r.value < limit && Progress(classes, length, tape, drawn + [r.value], rest)
    ensures r.Unfinished? ==> GeneratedFrom(classes, length, tape) == Unfinished
  {
    r, rest := RandomIndex(limit, left);
    DrawOne(classes, length, drawn, limit, tape, left, r, rest);
    if r.Returned? {
      InLimitsMore(classes, length, drawn, r.value);
    }
  }

  /** One character of each class, then characters of any class up to the length. */
  method PickCharacters(classes: seq<string>, length: nat, tape: seq<byte>)
    returns (characters: Outcome<string>, rest: seq<byte>, ghost drawn: seq<nat>)
    requires Usable(classes, length)
    ensures !characters.Threw?
    ensures characters.Unfinished? ==> GeneratedFrom(classes, length, tape) == Unfinished
    ensures characters.Returned? ==>
      && |drawn| == length && Progress(classes, length, tape, drawn, rest)
      && characters.value == Picked(classes, length, drawn)
  {
    rest, drawn := tape, [];
    var picked: string := "";
    while |picked| < length
      invariant |picked| == |drawn| <= length && Progress(classes, length, tape, drawn, rest)
      invariant forall k | 0 <= k < |drawn| :: picked[k] == PickedAt(classes, length, k, drawn[k])
    {
      var alphabet := if |picked| < |classes| then classes[|picked|] else Union(classes);
      var index: Outcome<nat>;
      index, rest := NextIndex(classes, length, |alphabet|, tape, drawn, rest);
      if index.Unfinished? {
        return Unfinished, rest, drawn;
      }
      drawn := drawn + [index.value];
      picked := picked + [alphabet[index.value]];
    }
    assert picked == Picked(classes, length, drawn);
    characters := Returned(picked);
  }

  method SwapAt(characters: array<char>, i: nat, j: nat)
    requires i < characters.Length && j < characters.Length
    modifies characters
    ensures characters[..] == Swap(old(characters[..]), i, j)
  {
    var a, b := characters[i], characters[j];
    characters[i] := b;
    characters[j] := a;
  }

  /** The Fisher-Yates loop, in place. */
  method ShuffleInPlace(
    classes: seq<string>, characters: array<char>, ghost tape: seq<byte>, ghost picks: seq<nat>, left: seq<byte>)
    returns (done: bool, rest: seq<byte>, ghost drawn: seq<nat>)
    requires Usable(classes, characters.Length)
    requires |picks| == characters.Length && Progress(classes, characters.Length, tape, picks, left)
    modifies characters
    ensures !done ==> GeneratedFrom(classes, characters.Length, tape) == Unfinished
    ensures done ==>
      && |drawn| == 2 * characters.Length - 1 && Progress(classes, characters.Length, tape, drawn, rest)
      && drawn[..|picks|] == picks && Choices(|picks|, drawn[|picks|..])
      && characters[..] == Shuffled(old(characters[..]), |picks|, drawn[|picks|..])
  {
    var length := characters.Length;
    ghost var before := characters[..];
    ghost var choices: seq<nat> := [];
    rest, drawn := left, picks;
    var i := characters.Length - 1;
    while i > 0
      invariant 0 <= i < length && |choices| == length - 1 - i && drawn == picks + choices
      invariant Progress(classes, length, tape, drawn, rest)
      invariant Choices(length, choices) && characters[..] == Shuffled(before, length, choices)
    {
      var j: Outcome<nat>;
      j, rest := NextIndex(classes, length, i + 1, tape, drawn, rest);
      if j.Unfinished? {
        return false, rest, drawn;
      }
      ShuffledSnoc(before, length, choices, j.value);
      assert drawn + [j.value] == picks + (choices + [j.value]);
      drawn, choices := drawn + [j.value], choices + [j.value];
      SwapAt(characters, i, j.value);
      i := i - 1;
    }
    assert drawn[|picks|..] == choices;
    done := true;
  }

  method GeneratePassword(o: Settings, tape: seq<byte>) returns (r: Outcome<string>)
    ensures r == Generated(o, tape)
    ensures r.Threw? <==> (!o.lowercase && !o.uppercase && !o.digits && !o.symbols) || o.length < |Enabled(o)|
    ensures r.Returned? ==> Meets(Enabled(o), o.length, r.value)
  {
    var classes := Enabled(o);
    if classes == [] || o.length < |classes| {
      return Threw;
    }
    r := FromClasses(classes, o.length, tape);
    if r.Returned? {
      GeneratedMeets(classes, o.length, tape);
    }
  }

  method FromClasses(classes: seq<string>, length: nat, tape: seq<byte>) returns (r: Outcome<string>)
    requires Usable(classes, length)
    ensures r == GeneratedFrom(classes, length, tape)
  {
    var picked, left, picks := PickCharacters(classes, length, tape);
    if picked.Unfinished? {
      return Unfinished;
    }
    var characters := new char[length](i requires 0 <= i < length => picked.value[i]);
    assert characters[..] == picked.value;
    var done, rest, drawn := ShuffleInPlace(classes, characters, tape, picks, left);
    if !done {
      return Unfinished;
    }
    PicksOnly(classes, length, picks, drawn);
    DrawsGenerate(classes, length, |drawn|, tape, drawn, rest);
    r := Returned(characters[..]);
  }

  lemma {:induction false} PicksOnly(classes: seq<string>, length: nat, picks: seq<nat>, drawn: seq<nat>)
    requires Usable(classes, length) && |picks| == length <= |drawn| < 2 * length
    requires InLimits(classes, length, picks) && InLimits(classes, length, drawn) && drawn[..length] == picks
    ensures Picked(classes, length, drawn) == Picked(classes, length, picks)
  {
    forall k | 0 <= k < length
      ensures drawn[k] == picks[k]
    {
      assert drawn[..length][k] == picks[k];
    }
  }
}
