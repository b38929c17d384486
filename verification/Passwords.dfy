/**
 * The dashboard's password generator: which passwords a configuration allows, and that the
 * generator makes exactly those.
 */
module Passwords {
  import opened Sampling
  import opened Shuffle
  import opened Text

  function Uppercase(): (r: string)
    ensures |r| == 26 && forall c :: c in r <==> 'A' <= c <= 'Z'
  {
    "ABCDEFGHIJKLMNOPQRSTUVWXYZ"
  }

  function Lowercase(): (r: string)
    ensures |r| == 26 && forall c :: c in r <==> 'a' <= c <= 'z'
  {
    "abcdefghijklmnopqrstuvwxyz"
  }

  function Numbers(): (r: string)
    ensures |r| == 10 && forall c :: c in r <==> '0' <= c <= '9'
  {
    "0123456789"
  }

  function Symbols(): (r: string)
    ensures |r| == 8 && forall c :: c in r <==> c in {'!', '@', '#', '$', '%', '^', '&', '*'}
  {
    "!@#$%^&*"
  }

  predicate IsAmbiguous(c: char) {
    c in "lI1O0"
  }

  lemma AmbiguousAre(c: char)
    ensures IsAmbiguous(c) <==> c == 'l' || c == 'I' || c == '1' || c == 'O' || c == '0'
  {
    var all := "lI1O0";
    assert all[0] == 'l' && all[1] == 'I' && all[2] == '1' && all[3] == 'O' && all[4] == '0';
  }

  lemma KeptInEverySet()
    ensures !IsAmbiguous('A') && !IsAmbiguous('a') && !IsAmbiguous('2') && !IsAmbiguous('!')
  {
  }

  lemma DigitsAreNotSymbols()
    ensures forall c | c in Numbers() :: c !in Symbols()
  {
  }

  datatype Settings = Settings(
    length: int,
    includeUppercase: bool, includeLowercase: bool, includeNumbers: bool, includeSymbols: bool,
    minimumNumbers: int, minimumSpecial: int,
    avoidAmbiguous: bool)

  /** Keeps every unambiguous character, in order, and drops the others. */
  function RemoveAmbiguous(charset: string): (r: string)
    ensures |r| <= |charset|
    ensures forall c :: c in r <==> c in charset && !IsAmbiguous(c)
  {
    if charset == "" then ""
    else (if IsAmbiguous(charset[0]) then "" else [charset[0]]) + RemoveAmbiguous(charset[1..])
  }

  /**
   * Which fixes the filter: it takes a string apart character by character, keeps the unambiguous ones where and as
   * often as they stand, and drops the others.
   */
  lemma {:induction false} RemoveAmbiguousMeaning(a: string, b: string, c: char)
    ensures RemoveAmbiguous(a + b) == RemoveAmbiguous(a) + RemoveAmbiguous(b)
    ensures RemoveAmbiguous([c]) == if IsAmbiguous(c) then "" else [c]
    ensures RemoveAmbiguous("") == ""
    decreases a
  {
    hide IsAmbiguous;
    assert [c][1..] == "";
    if a == "" {
      assert a + b == b;
    } else {
      assert (a + b)[1..] == a[1..] + b;
      RemoveAmbiguousMeaning(a[1..], b, c);
    }
  }

  function Charset(s: Settings, full: string): (r: string)
    ensures |r| <= |full|
    ensures forall c :: c in r <==> c in full && !(s.avoidAmbiguous && IsAmbiguous(c))
  {
    if s.avoidAmbiguous then RemoveAmbiguous(full) else full
  }

  function Available(s: Settings): string {
    (if s.includeUppercase then Charset(s, Uppercase()) else "")
    + (if s.includeLowercase then Charset(s, Lowercase()) else "")
    + (if s.includeNumbers then Charset(s, Numbers()) else "")
    + (if s.includeSymbols then Charset(s, Symbols()) else "")
  }

  /** A character is available when its set is enabled and it is not refused as ambiguous. */
  lemma AvailableMeaning(s: Settings)
    ensures forall c :: c in Available(s) <==>
              && ((s.includeUppercase && c in Uppercase()) || (s.includeLowercase && c in Lowercase())
                  || (s.includeNumbers && c in Numbers()) || (s.includeSymbols && c in Symbols()))
              && !(s.avoidAmbiguous && IsAmbiguous(c))
  {
    hide RemoveAmbiguous, Charset, IsAmbiguous, Uppercase, Lowercase, Numbers, Symbols;
  }

  predicate NoneTwice(s: string) {
    forall i, j | 0 <= i < j < |s| :: s[i] != s[j]
  }

  predicate Apart(a: string, b: string) {
    forall c | c in a :: c !in b
  }

  lemma NoneTwiceConcat(a: string, b: string)
    requires NoneTwice(a) && NoneTwice(b) && Apart(a, b)
    ensures NoneTwice(a + b)
  {
    var s := a + b;
    forall i, j | 0 <= i < j < |s|
      ensures s[i] != s[j]
    {
      if i < |a| <= j {
        assert a[i] in a && b[j - |a|] in b;
      }
    }
  }

  lemma {:induction false} FilteredNoneTwice(charset: string)
    requires NoneTwice(charset)
    ensures NoneTwice(RemoveAmbiguous(charset))
  {
    hide IsAmbiguous;
    if charset != "" {
      var rest := charset[1..];
      FilteredNoneTwice(rest);
      assert charset[0] !in rest;
      NoneTwiceConcat(if IsAmbiguous(charset[0]) then "" else [charset[0]], RemoveAmbiguous(rest));
    }
  }

  lemma LetterAt(i: nat)
    requires i < 26
    ensures Uppercase()[i] as int == 'A' as int + i
    ensures Lowercase()[i] as int == 'a' as int + i
  {
  }

  lemma DigitAt(i: nat)
    requires i < 10
    ensures Numbers()[i] as int == '0' as int + i
  {
  }

  lemma SymbolsNoneTwice()
    ensures NoneTwice(Symbols())
  {
    var s := "!@#$%^&*";
    assert s[0] == '!' && s[1] == '@' && s[2] == '#' && s[3] == '$' && s[4] == '%' && s[5] == '^' && s[6] == '&';
    assert s[7] == '*';
  }

  lemma SetsNoneTwice()
    ensures NoneTwice(Uppercase()) && NoneTwice(Lowercase()) && NoneTwice(Numbers()) && NoneTwice(Symbols())
  {
    hide Uppercase, Lowercase, Numbers, Symbols;
    forall i, j | 0 <= i < j < 26
      ensures Uppercase()[i] != Uppercase()[j] && Lowercase()[i] != Lowercase()[j]
    {
      LetterAt(i);
      LetterAt(j);
    }
    forall i, j | 0 <= i < j < 10
      ensures Numbers()[i] != Numbers()[j]
    {
      DigitAt(i);
      DigitAt(j);
    }
    SymbolsNoneTwice();
  }

  lemma CharsetOnce(s: Settings, enabled: bool, full: string)
    requires NoneTwice(full)
    ensures var part := if enabled then Charset(s, full) else "";
            NoneTwice(part) && forall c | c in part :: c in full
  {
    hide IsAmbiguous;
    FilteredNoneTwice(full);
  }

  /** Each available character stands in the list once, so a draw favours none. */
  lemma AvailableOnce(s: Settings)
    ensures NoneTwice(Available(s))
  {
    hide RemoveAmbiguous, Charset, NoneTwice, Uppercase, Lowercase, Numbers, Symbols;
    SetsNoneTwice();
    CharsetOnce(s, s.includeUppercase, Uppercase());
    CharsetOnce(s, s.includeLowercase, Lowercase());
    CharsetOnce(s, s.includeNumbers, Numbers());
    CharsetOnce(s, s.includeSymbols, Symbols());
    var a := if s.includeUppercase then Charset(s, Uppercase()) else "";
    var b := if s.includeLowercase then Charset(s, Lowercase()) else "";
    var c := if s.includeNumbers then Charset(s, Numbers()) else "";
    var d := if s.includeSymbols then Charset(s, Symbols()) else "";
    NoneTwiceConcat(a, b);
    NoneTwiceConcat(a + b, c);
    NoneTwiceConcat(a + b + c, d);
  }

  /** No set is emptied by dropping ambiguous characters, so nothing is available only when nothing is enabled. */
  lemma AvailableEmpty(s: Settings)
    ensures Charset(s, Numbers()) != "" && Charset(s, Symbols()) != ""
    ensures |Available(s)| <= 70
    ensures Available(s) == "" <==>
            !s.includeUppercase && !s.includeLowercase && !s.includeNumbers && !s.includeSymbols
  {
    hide RemoveAmbiguous, Charset, IsAmbiguous, Uppercase, Lowercase, Numbers, Symbols;
    KeptInEverySet();
    assert 'A' in Charset(s, Uppercase()) && 'a' in Charset(s, Lowercase());
    assert '2' in Charset(s, Numbers()) && '!' in Charset(s, Symbols());
  }

  // ---------------------------------------------------------------------------
  // The policy
  // ---------------------------------------------------------------------------

  function Positive(n: int): nat {
    if n > 0 then n else 0
  }

  function WantedNumbers(s: Settings): nat {
    if s.includeNumbers then Positive(s.minimumNumbers) else 0
  }

  function WantedSymbols(s: Settings): nat {
    if s.includeSymbols then Positive(s.minimumSpecial) else 0
  }

  /** No set is enabled, or the guaranteed characters alone are too many. */
  predicate Unsatisfiable(s: Settings) {
    || (!s.includeUppercase && !s.includeLowercase && !s.includeNumbers && !s.includeSymbols)
    || s.length < WantedNumbers(s) + WantedSymbols(s)
  }

  predicate AllIn(p: string, charset: string) {
    forall i | 0 <= i < |p| :: p[i] in charset
  }

  /** How many positions of `p` hold a character of `charset`. */
  function Count(p: string, charset: string): (n: nat)
    ensures n <= |p|
  {
    if p == "" then 0
    else Count(p[..|p| - 1], charset) + if p[|p| - 1] in charset then 1 else 0
  }

  /** What a password must be. */
  predicate Meets(s: Settings, p: string) {
    && |p| == s.length
    && AllIn(p, Available(s))
    && (s.avoidAmbiguous ==> forall i | 0 <= i < |p| :: !IsAmbiguous(p[i]))
    && (s.includeNumbers ==> Count(p, Numbers()) >= s.minimumNumbers)
    && (s.includeSymbols ==> Count(p, Symbols()) >= s.minimumSpecial)
  }

  lemma {:induction false} CountAppend(p: string, q: string, charset: string)
    ensures Count(p + q, charset) == Count(p, charset) + Count(q, charset)
    decreases |q|
  {
    if q == "" {
      assert p + q == p;
    } else {
      assert (p + q)[..|p + q| - 1] == p + q[..|q| - 1];
      CountAppend(p, q[..|q| - 1], charset);
    }
  }

  lemma WithoutLast(p: string, q: string) returns (left: string, right: string)
    requires p != "" && multiset(p) == multiset(q)
    ensures q == left + ([p[|p| - 1]] + right) && multiset(p[..|p| - 1]) == multiset(left + right)
  {
    var last := p[|p| - 1];
    LastOut(p);
    assert last in multiset(q);
    var i: nat :| i < |q| && q[i] == last;
    left, right := q[..i], q[i + 1..];
    assert q == left + ([last] + right);
    assert multiset(q) == multiset(left + right) + multiset{last};
    Cancel(multiset(p[..|p| - 1]), multiset(left + right), last);
  }

  /** Counting does not see the order. */
  lemma {:induction false} CountPermutes(p: string, q: string, charset: string)
    requires multiset(p) == multiset(q)
    ensures Count(p, charset) == Count(q, charset)
    decreases |p|
  {
    assert |p| == |multiset(p)| == |multiset(q)| == |q|;
    if p != "" {
      var last, front := p[|p| - 1], p[..|p| - 1];
      var left, right := WithoutLast(p, q);
      CountPermutes(front, left + right, charset);
      CountAppend(left, right, charset);
      CountAppend(left, [last] + right, charset);
      CountAppend([last], right, charset);
    }
  }

  lemma {:induction false} CountAll(p: string, charset: string)
    requires AllIn(p, charset)
    ensures Count(p, charset) == |p|
  {
    if p != "" {
      CountAll(p[..|p| - 1], charset);
    }
  }

  /** `n` characters of a set can be taken out of any string that has as many. */
  lemma {:induction false} TakeOut(p: string, charset: string, n: nat) returns (taken: string, left: string)
    requires n <= Count(p, charset)
    ensures |taken| == n && AllIn(taken, charset) && multiset(taken + left) == multiset(p)
    decreases |p|
  {
    if n == 0 {
      taken, left := "", p;
      assert taken + left == p;
    } else {
      var last, front := p[|p| - 1], p[..|p| - 1];
      LastOut(p);
      if last in charset {
        taken, left := TakeOut(front, charset, n - 1);
        taken := taken + [last];
      } else {
        taken, left := TakeOut(front, charset, n);
        left := left + [last];
      }
    }
  }

  // ---------------------------------------------------------------------------
  // What the generator mixes, and that mixing it gives exactly the allowed passwords
  // ---------------------------------------------------------------------------

  /** The characters drawn for the digits, for the symbols and for the rest. */
  datatype Ingredients = Ingredients(numbers: string, symbols: string, rest: string) {
    function All(): string { numbers + symbols + rest }
  }

  predicate Legal(s: Settings, x: Ingredients) {
    && |x.numbers| == WantedNumbers(s) && AllIn(x.numbers, Charset(s, Numbers()))
    && |x.symbols| == WantedSymbols(s) && AllIn(x.symbols, Charset(s, Symbols()))
    && |x.All()| == s.length && AllIn(x.rest, Available(s))
  }

  lemma MixtureAvailable(s: Settings, x: Ingredients)
    requires Legal(s, x)
    ensures AllIn(x.All(), Available(s))
  {
    hide RemoveAmbiguous, Charset, Available, IsAmbiguous, Uppercase, Lowercase, Numbers, Symbols;
    AvailableMeaning(s);
  }

  lemma AllInPermutes(p: string, q: string, charset: string)
    requires multiset(p) == multiset(q) && AllIn(q, charset)
    ensures AllIn(p, charset)
  {
    forall i | 0 <= i < |p|
      ensures p[i] in charset
    {
      assert p[i] in multiset(q);
    }
  }

  lemma MixtureCounts(s: Settings, x: Ingredients)
    requires Legal(s, x)
    ensures Count(x.All(), Numbers()) >= WantedNumbers(s)
    ensures Count(x.All(), Symbols()) >= WantedSymbols(s)
  {
    hide RemoveAmbiguous, Charset, Available, Count, IsAmbiguous, Uppercase, Lowercase, Numbers, Symbols;
    forall charset
      ensures Count(x.All(), charset)
           == Count(x.numbers, charset) + Count(x.symbols, charset) + Count(x.rest, charset)
    {
      CountAppend(x.numbers + x.symbols, x.rest, charset);
      CountAppend(x.numbers, x.symbols, charset);
    }
    CountAll(x.numbers, Numbers());
    CountAll(x.symbols, Symbols());
  }

  /** Every order of legal ingredients meets the policy. */
  lemma Sound(s: Settings, x: Ingredients, p: string)
    requires Legal(s, x) && multiset(p) == multiset(x.All())
    ensures Meets(s, p)
  {
    hide RemoveAmbiguous, Charset, Available, Count, IsAmbiguous, Uppercase, Lowercase, Numbers, Symbols;
    assert |p| == |multiset(p)| == |x.All()|;
    MixtureAvailable(s, x);
    AllInPermutes(p, x.All(), Available(s));
    AvailableMeaning(s);
    MixtureCounts(s, x);
    CountPermutes(p, x.All(), Numbers());
    CountPermutes(p, x.All(), Symbols());
  }

  /** Every password that meets the policy is an order of legal ingredients. */
  lemma Complete(s: Settings, p: string) returns (x: Ingredients)
    requires Meets(s, p)
    ensures Legal(s, x) && multiset(p) == multiset(x.All())
  {
    hide RemoveAmbiguous, Charset, Available, Count, IsAmbiguous, Uppercase, Lowercase, Numbers, Symbols;
    var numbers, others := TakeOut(p, Numbers(), WantedNumbers(s));
    CountPermutes(p, numbers + others, Symbols());
    CountAppend(numbers, others, Symbols());
    DigitsAreNotSymbols();
    CountNone(numbers, Numbers(), Symbols());
    var symbols, rest := TakeOut(others, Symbols(), WantedSymbols(s));
    x := Ingredients(numbers, symbols, rest);
    assert multiset(x.All()) == multiset(p);
    AllInPermutes(x.All(), p, Available(s));
    assert |x.All()| == |multiset(p)| == |p|;
    Parts(x, Available(s));
    InCharset(s, numbers, Numbers());
    InCharset(s, symbols, Symbols());
  }

  lemma InCharset(s: Settings, p: string, full: string)
    requires AllIn(p, full) && AllIn(p, Available(s))
    ensures AllIn(p, Charset(s, full))
  {
    hide RemoveAmbiguous, Charset, Available, IsAmbiguous, Uppercase, Lowercase, Numbers, Symbols;
    AvailableMeaning(s);
  }

  lemma Parts(x: Ingredients, charset: string)
    requires AllIn(x.All(), charset)
    ensures AllIn(x.numbers, charset) && AllIn(x.symbols, charset) && AllIn(x.rest, charset)
  {
    var n, m, all := |x.numbers|, |x.symbols|, x.All();
    assert x.numbers == all[..n] && x.symbols == all[n..n + m] && x.rest == all[n + m..];
  }

  lemma {:induction false} CountNone(p: string, charset: string, other: string)
    requires AllIn(p, charset) && forall c | c in charset :: c !in other
    ensures Count(p, other) == 0
  {
    if p != "" {
      CountNone(p[..|p| - 1], charset, other);
    }
  }

  /**
   * The generator can make exactly the passwords that meet the policy: some legal draws and some choices of the
   * shuffle give `p` just when `p` meets it.
   */
  lemma PolicyExact(s: Settings, p: string)
    ensures Meets(s, p) <==>
            exists x: Ingredients, js: seq<nat> ::
              Legal(s, x) && |js| == |x.All()| && Choices(js) && Shuffled(x.All(), js) == p
  {
    hide Meets, Legal, Shuffled, Choices;
    if x: Ingredients, js: seq<nat> :|
      Legal(s, x) && |js| == |x.All()| && Choices(js) && Shuffled(x.All(), js) == p
    {
      ShuffledPermutes(x.All(), js);
      Sound(s, x, p);
    }
    if Meets(s, p) {
      var x := Complete(s, p);
      var js := ShuffledOnto(x.All(), p);
    }
  }

  /** `n` times the same character. */
  lemma Repeated(c: char, n: nat, charset: string) returns (p: string)
    requires c in charset
    ensures |p| == n && AllIn(p, charset)
  {
    p := seq(n, _ => c);
  }

  /**
   * Settings are refused exactly when no password meets them, but for one case: with no set enabled and length 0 the
   * empty password would do.
   */
  lemma UnsatisfiableMeaning(s: Settings)
    ensures Unsatisfiable(s) <==> (forall p :: !Meets(s, p)) || (Available(s) == "" && s.length == 0)
  {
    hide RemoveAmbiguous, Charset, Available, Meets, Count, IsAmbiguous, Uppercase, Lowercase, Numbers, Symbols;
    AvailableEmpty(s);
    if !Unsatisfiable(s) {
      var numbers := Repeated(Charset(s, Numbers())[0], WantedNumbers(s), Charset(s, Numbers()));
      var symbols := Repeated(Charset(s, Symbols())[0], WantedSymbols(s), Charset(s, Symbols()));
      var rest := Repeated(Available(s)[0], s.length - WantedNumbers(s) - WantedSymbols(s), Available(s));
      var x := Ingredients(numbers, symbols, rest);
      Sound(s, x, x.All());
    }
    forall p | Meets(s, p)
      ensures !Unsatisfiable(s) || (Available(s) == "" && s.length == 0)
    {
      var x := Complete(s, p);
      LegalFits(s, x);
    }
    if Available(s) == "" && s.length == 0 {
      assert Unsatisfiable(s);
    }
  }

  lemma LegalFits(s: Settings, x: Ingredients)
    requires Legal(s, x)
    ensures s.length >= WantedNumbers(s) + WantedSymbols(s) && (Available(s) == "" ==> x.rest == "")
    ensures Available(s) == "" ==> !s.includeUppercase && !s.includeLowercase && !s.includeNumbers && !s.includeSymbols
    ensures Available(s) == "" ==> s.length == 0
  {
    hide RemoveAmbiguous, Charset, Available, IsAmbiguous, Uppercase, Lowercase, Numbers, Symbols;
    AvailableEmpty(s);
    assert x.rest != "" ==> x.rest[0] in Available(s);
  }

  // ---------------------------------------------------------------------------
  // The generator
  // ---------------------------------------------------------------------------

  /** `n` characters of `charset`, one draw after the other. */
  ghost function Picks(stream: nat -> Word, k: nat, charset: string, n: nat): (d: Drawn<string>)
    requires Fair(stream) && 0 < |charset| <= RANGE
    ensures |d.value| == n && AllIn(d.value, charset)
    decreases n
  {
    if n == 0 then Drawn("", k)
    else
      var front := Picks(stream, k, charset, n - 1);
      var d := Draw(stream, front.next, |charset|);
      Drawn(front.value + [charset[d.value]], d.next)
  }

  /** The guaranteed digits, then the guaranteed symbols, then the rest, in the order they are drawn. */
  ghost function DrawIngredients(stream: nat -> Word, k: nat, s: Settings): (d: Drawn<Ingredients>)
    requires Fair(stream) && !Unsatisfiable(s)
  {
    hide Fair, Picks, RemoveAmbiguous, Charset, Available, AllIn, Uppercase, Lowercase, Numbers, Symbols;
    AvailableEmpty(s);
    var numbers := Picks(stream, k, Charset(s, Numbers()), WantedNumbers(s));
    var symbols := Picks(stream, numbers.next, Charset(s, Symbols()), WantedSymbols(s));
    var rest := Picks(stream, symbols.next, Available(s), s.length - WantedNumbers(s) - WantedSymbols(s));
    Drawn(Ingredients(numbers.value, symbols.value, rest.value), rest.next)
  }

  lemma DrawnLegal(stream: nat -> Word, k: nat, s: Settings)
    requires Fair(stream) && !Unsatisfiable(s)
    ensures Legal(s, DrawIngredients(stream, k, s).value)
  {
    hide Fair, Picks, RemoveAmbiguous, Charset, Available, AllIn, Uppercase, Lowercase, Numbers, Symbols;
    AvailableEmpty(s);
  }

  lemma PicksMore(stream: nat -> Word, k: nat, charset: string, n: nat)
    requires Fair(stream) && 0 < |charset| <= RANGE
    ensures var front := Picks(stream, k, charset, n);
            var d := Draw(stream, front.next, |charset|);
            Picks(stream, k, charset, n + 1) == Drawn(front.value + [charset[d.value]], d.next)
  {
    hide Draw, Fair, AllIn;
  }

  /** The i-th character is the one that the i-th accepted draw selects. */
  lemma {:induction false} PicksFollow(stream: nat -> Word, k: nat, charset: string, n: nat, i: nat)
    requires Fair(stream) && 0 < |charset| <= RANGE && i < n
    ensures var t := Picks(stream, k, charset, i + 1).next - 1;
            && k <= Picks(stream, k, charset, i).next <= t
            && FirstBelow(stream, Picks(stream, k, charset, i).next, RangeLimit(|charset|), t)
            && Picks(stream, k, charset, n).value[i] == charset[stream(t) % |charset|]
    decreases n
  {
    hide Fair, AllIn, FirstBelow, RangeLimit;
    PicksForward(stream, k, charset, i);
    if i < n - 1 {
      PicksFollow(stream, k, charset, n - 1, i);
      hide Draw;
    }
  }

  lemma {:induction false} PicksForward(stream: nat -> Word, k: nat, charset: string, n: nat)
    requires Fair(stream) && 0 < |charset| <= RANGE
    ensures k <= Picks(stream, k, charset, n).next
    decreases n
  {
    hide Fair, AllIn, FirstBelow, RangeLimit;
    if n > 0 {
      PicksForward(stream, k, charset, n - 1);
    }
  }

  /** Of the accepted draws equally many select each character. */
  lemma CharUniform(charset: string, c: char)
    requires charset != "" && NoneTwice(charset) && c in charset
    ensures 0 <= RangeLimit(|charset|)
    ensures |set x | 0 <= x < RangeLimit(|charset|) && charset[x % |charset|] == c| == RANGE / |charset|
  {
    hide RangeLimit;
    var r: nat :| r < |charset| && charset[r] == c;
    Unbiased(|charset|, r);
    assert (set x | 0 <= x < RangeLimit(|charset|) && charset[x % |charset|] == c)
        == Preimage(RangeLimit(|charset|), |charset|, r);
  }

  lemma PicksNone(stream: nat -> Word, k: nat, charset: string)
    requires Fair(stream) && 0 < |charset| <= RANGE
    ensures Picks(stream, k, charset, 0) == Drawn("", k)
  {
    hide Draw, Fair, AllIn;
  }

  method GetRandomChar(charset: string, entropy: Entropy) returns (c: char)
    requires Fair(entropy.stream) && 0 < |charset| <= RANGE
    modifies entropy
    ensures var d := Draw(entropy.stream, old(entropy.used), |charset|);
            c == charset[d.value] && entropy.used == d.next
  {
    RedrawEnds(entropy.stream, entropy.used, |charset|);
    var index := GetSecureRandomInt(|charset|, entropy);
    DrawIs(entropy.stream, old(entropy.used), |charset|, entropy.used - 1);
    c := charset[index.value];
  }

  /** The loops that push random characters. */
  method PushRandomChars(chars: seq<char>, charset: string, n: int, entropy: Entropy) returns (r: seq<char>)
    requires Fair(entropy.stream) && 0 < |charset| <= RANGE
    modifies entropy
    ensures var d := Picks(entropy.stream, old(entropy.used), charset, Positive(n));
            r == chars + d.value && entropy.used == d.next
  {
    hide Draw, Fair, Picks, AllIn;
    r := chars;
    PicksNone(entropy.stream, entropy.used, charset);
    var i := 0;
    while i < n
      invariant 0 <= i <= Positive(n)
      invariant var d := Picks(entropy.stream, old(entropy.used), charset, i);
                r == chars + d.value && entropy.used == d.next
    {
      PicksMore(entropy.stream, old(entropy.used), charset, i);
      var c := GetRandomChar(charset, entropy);
      r := r + [c];
      i := i + 1;
    }
  }

  /** The shuffle of the collected characters, and the join. */
  method Mix(chars: seq<char>, entropy: Entropy) returns (password: string)
    requires Fair(entropy.stream) && |chars| < RANGE
    modifies entropy
    ensures var d := DrawChoices(entropy.stream, old(entropy.used), |chars|);
            password == Shuffled(chars, d.value) && entropy.used == d.next
  {
    hide Draw, Fair, DrawChoices, Shuffled, Choices;
    var a := new char[|chars|](i requires 0 <= i < |chars| => chars[i]);
    assert a[..] == chars;
    ShuffleInPlace(a, entropy);
    return a[..];
  }

  lemma ShuffledMeets(s: Settings, x: Ingredients, js: seq<nat>)
    requires Legal(s, x) && |js| == |x.All()| && Choices(js)
    ensures Meets(s, Shuffled(x.All(), js))
  {
    hide Shuffled, Choices, Legal, Meets;
    ShuffledPermutes(x.All(), js);
    Sound(s, x, Shuffled(x.All(), js));
  }

  /** The first half of `generatePassword`: the available characters, and the guaranteed ones. */
  method CollectChars(s: Settings, entropy: Entropy) returns (availableChars: string, guaranteedChars: seq<char>)
    requires Fair(entropy.stream)
    modifies entropy
    ensures availableChars == Available(s)
    ensures Charset(s, Numbers()) != "" && Charset(s, Symbols()) != ""
    ensures var numbers := Picks(entropy.stream, old(entropy.used), Charset(s, Numbers()), WantedNumbers(s));
            var symbols := Picks(entropy.stream, numbers.next, Charset(s, Symbols()), WantedSymbols(s));
            guaranteedChars == numbers.value + symbols.value && entropy.used == symbols.next
  {
    hide Fair, Picks, RemoveAmbiguous, Charset, AllIn, IsAmbiguous;
    hide Uppercase, Lowercase, Numbers, Symbols;
    AvailableEmpty(s);
    availableChars, guaranteedChars := "", [];
    if s.includeUppercase {
      availableChars := availableChars + Charset(s, Uppercase());
    }
    if s.includeLowercase {
      availableChars := availableChars + Charset(s, Lowercase());
    }
    PicksNone(entropy.stream, entropy.used, Charset(s, Numbers()));
    if s.includeNumbers {
      guaranteedChars := PushRandomChars(guaranteedChars, Charset(s, Numbers()), s.minimumNumbers, entropy);
      availableChars := availableChars + Charset(s, Numbers());
    }
    PicksNone(entropy.stream, entropy.used, Charset(s, Symbols()));
    if s.includeSymbols {
      guaranteedChars := PushRandomChars(guaranteedChars, Charset(s, Symbols()), s.minimumSpecial, entropy);
      availableChars := availableChars + Charset(s, Symbols());
    }
  }

  /**
   * `generatePassword`: refuses exactly the unsatisfiable settings; otherwise mixes what it drew, and the result
   * meets the policy. Lengths stay below JavaScript's array limit.
   */
  method GeneratePassword(s: Settings, entropy: Entropy) returns (r: Option<string>)
    requires Fair(entropy.stream)
    requires s.length < RANGE && WantedNumbers(s) + WantedSymbols(s) < RANGE
    modifies entropy
    ensures r.None? <==> Unsatisfiable(s)
    ensures r.Some? ==>
              var x := DrawIngredients(entropy.stream, old(entropy.used), s);
              var js := DrawChoices(entropy.stream, x.next, s.length);
              r.value == Shuffled(x.value.All(), js.value) && entropy.used == js.next
    ensures r.Some? ==> Meets(s, r.value)
  {
    hide Draw, Fair, FirstBelow, Picks, DrawChoices, Shuffled, Choices;
    hide RemoveAmbiguous, Charset, Available, Meets, Count, AllIn, Legal, IsAmbiguous;
    hide Uppercase, Lowercase, Numbers, Symbols;
    AvailableEmpty(s);
    ghost var stream, start := entropy.stream, entropy.used;
    var availableChars, guaranteedChars := CollectChars(s, entropy);
    if availableChars == "" || s.length < |guaranteedChars| {
      return None;
    }
    var remainingLength := s.length - |guaranteedChars|;
    guaranteedChars := PushRandomChars(guaranteedChars, availableChars, remainingLength, entropy);
    ghost var x := DrawIngredients(stream, start, s);
    DrawnLegal(stream, start, s);

    // Shuffle the final password
    var password := Mix(guaranteedChars, entropy);
    r := Some(password);
    ShuffledMeets(s, x.value, DrawChoices(stream, x.next, s.length).value);
  }
}
