/**
  The password generator: the character pool built from the enabled sets,
  the feasibility check, the strength score, and password generation with
  the platform's random source as a parameter.
 */
module PasswordGenerator {
  import opened Outcomes
  import opened Text

  /** `code` code points from `first` on. */
  function Alphabet(first: int, count: nat): (r: string)
    requires 0 <= first && first + count <= 0xD800
    ensures |r| == count
    ensures forall c :: c in r <==> first <= c as int < first + count
    ensures forall i :: 0 <= i < count ==> r[i] as int == first + i
  {
    var r := seq(count, i requires 0 <= i < count => (first + i) as char);
    forall c: char | first <= c as int < first + count
      ensures c in r
    {
      assert r[c as int - first] == c;
    }
    r
  }

  const UpperLetters: string := Alphabet('A' as int, 26)
  const LowerLetters: string := Alphabet('a' as int, 26)
  const Digits: string := Alphabet('0' as int, 10)
  const DefaultSymbols: string := "!@#$%^&*()_+~`|}{[]:;?><,./-="

  /** The pools are the literal alphabets of the source. */
  lemma AlphabetsAsWritten()
    ensures UpperLetters == "ABCDEFGHIJKLMNOPQRSTUVWXYZ"
    ensures LowerLetters == "abcdefghijklmnopqrstuvwxyz"
    ensures Digits == "0123456789"
  {
  }

  datatype Settings = Settings(
    length: int,
    count: int,
    uppercase: bool,
    lowercase: bool,
    numbers: bool,
    symbolsEnabled: bool,
    symbols: string,
    omit: string,
    uniqueChars: bool)

  const Defaults: Settings := Settings(16, 1, true, true, true, true, DefaultSymbols, "", true)

  predicate NoDup(s: string) {
    forall p, q :: 0 <= p < q < |s| ==> s[p] != s[q]
  }

  /** Adding the characters of `s` one by one to a JavaScript `Set` already holding `acc`:
      a character already present keeps its place, a new one goes last. */
  function AddAll(acc: string, s: string): (r: string)
    requires NoDup(acc)
    ensures NoDup(r)
    ensures forall c :: c in r <==> c in acc || c in s
    ensures |acc| <= |r| && r[..|acc|] == acc
    decreases |s|
  {
    if |s| == 0 then acc
    else if s[0] in acc then AddAll(acc, s[1..])
    else
      var next := acc + [s[0]];
      assert next[..|acc|] == acc;
      var r := AddAll(next, s[1..]);
      assert r[..|acc|] == r[..|next|][..|acc|];
      r
  }

  /** `allowedChars.delete(c)` for every character of `omit`: the others keep their order. */
  function Without(s: string, omit: string): (r: string)
    requires NoDup(s)
    ensures NoDup(r)
    ensures forall c :: c in r <==> c in s && c !in omit
    ensures |r| <= |s|
  {
    if |s| == 0 then ""
    else if s[|s| - 1] in omit then Without(s[..|s| - 1], omit)
    else
      var front := Without(s[..|s| - 1], omit);
      assert forall c :: c in s <==> c in s[..|s| - 1] || c == s[|s| - 1];
      front + [s[|s| - 1]]
  }

  /** The enabled sets in the order upper, lower, digits, symbols. */
  function Enabled(st: Settings): string {
    (if st.uppercase then UpperLetters else "") + (if st.lowercase then LowerLetters else "") +
    (if st.numbers then Digits else "") + (if st.symbolsEnabled then st.symbols else "")
  }

  /** `charsets`. */
  function Charset(st: Settings): (r: string)
    ensures NoDup(r)
    ensures forall c :: c in r <==>
      c !in st.omit &&
      ((st.uppercase && IsUpperAscii(c)) || (st.lowercase && IsLowerAscii(c)) || (st.numbers && IsDigit(c)) ||
       (st.symbolsEnabled && c in st.symbols))
  {
    Without(AddAll("", Enabled(st)), st.omit)
  }

  /** `isGenerationPossible`. */
  function IsGenerationPossible(st: Settings): (r: bool)
    ensures !r <==> st.length <= 0 || (st.uniqueChars && st.length > |Charset(st)|) || |Charset(st)| == 0
  {
    if st.length <= 0 then false
    else if st.uniqueChars && st.length > |Charset(st)| then false
    else |Charset(st)| > 0
  }

  /** With the upper-case letters enabled and none of them omitted, any length from 1 to 26
      can be generated in either mode. */
  lemma UppercaseMakesGenerationPossible(st: Settings)
    requires st.uppercase && 1 <= st.length <= 26
    requires forall c :: c in st.omit ==> !IsUpperAscii(c)
    ensures IsGenerationPossible(st)
  {
    var cs := Charset(st);
    forall i | 0 <= i < |UpperLetters|
      ensures UpperLetters[i] in cs
    {
      assert IsUpperAscii(UpperLetters[i]);
    }
    DistinctMembersBoundLength(UpperLetters, cs);
  }

  /** The default settings can generate, in either mode. */
  lemma DefaultsArePossible()
    ensures IsGenerationPossible(Defaults)
    ensures IsGenerationPossible(Defaults.(uniqueChars := false))
  {
    UppercaseMakesGenerationPossible(Defaults);
    UppercaseMakesGenerationPossible(Defaults.(uniqueChars := false));
  }

  /** A duplicate-free pool holding `n` distinct characters holds at least `n` characters. */
  lemma {:induction false} DistinctMembersBoundLength(xs: string, ys: string)
    requires NoDup(xs) && NoDup(ys)
    requires forall i :: 0 <= i < |xs| ==> xs[i] in ys
    ensures |xs| <= |ys|
    decreases |xs|
  {
    if |xs| > 0 {
      var c := xs[|xs| - 1];
      var k :| 0 <= k < |ys| && ys[k] == c;
      var ys' := ys[..k] + ys[k + 1..];
      assert forall p, q :: 0 <= p < q < |ys'| ==> ys'[p] == ys[if p < k then p else p + 1] && ys'[q] == ys[if q < k then q else q + 1];
      forall i | 0 <= i < |xs| - 1
        ensures xs[i] in ys'
      {
        var j :| 0 <= j < |ys| && ys[j] == xs[i];
        assert j != k;
        assert ys'[if j < k then j else j - 1] == xs[i];
      }
      DistinctMembersBoundLength(xs[..|xs| - 1], ys');
    }
  }

  function IncrementLength(st: Settings): (r: Settings)
    ensures r.length == st.length + 1 && r == st.(length := r.length)
  {
    st.(length := st.length + 1)
  }

  function DecrementLength(st: Settings): (r: Settings)
    ensures r.length >= 1 && r.length >= st.length - 1 && r == st.(length := r.length)
    ensures st.length > 1 ==> r.length == st.length - 1
  {
    st.(length := if st.length - 1 > 1 then st.length - 1 else 1)
  }

  function IncrementCount(st: Settings): (r: Settings)
    ensures r.count == st.count + 1 && r == st.(count := r.count)
  {
    st.(count := st.count + 1)
  }

  function DecrementCount(st: Settings): (r: Settings)
    ensures r.count >= 1 && r.count >= st.count - 1 && r == st.(count := r.count)
    ensures st.count > 1 ==> r.count == st.count - 1
  {
    st.(count := if st.count - 1 > 1 then st.count - 1 else 1)
  }

  /** Down then up is the identity from length 2 on; from 1 the down step is absorbed. */
  lemma LengthStepsUndo(st: Settings)
    requires st.length >= 1
    ensures DecrementLength(IncrementLength(st)) == st
    ensures st.length >= 2 ==> IncrementLength(DecrementLength(st)) == st
    ensures st.length == 1 ==> DecrementLength(st) == st
  {
  }

  /** The entropy credit of one character. */
  function CharBits(c: char): (r: nat)
    ensures 1 <= r <= 4
  {
    if IsUpperAscii(c) || IsLowerAscii(c) then 4 else if IsDigit(c) then 3 else 1
  }

  function Bits(pw: string): (r: nat)
    ensures |pw| <= r <= 4 * |pw|
  {
    if |pw| == 0 then 0 else Bits(pw[..|pw| - 1]) + CharBits(pw[|pw| - 1])
  }

  /** Credits add up over concatenation. */
  lemma {:induction false} BitsAppend(a: string, b: string)
    ensures Bits(a + b) == Bits(a) + Bits(b)
    decreases |b|
  {
    if |b| > 0 {
      var b' := b[..|b| - 1];
      assert (a + b)[..|a + b| - 1] == a + b';
      assert (a + b)[|a + b| - 1] == b[|b| - 1];
      BitsAppend(a, b');
    } else {
      assert a + b == a;
    }
  }

  datatype Strength = Weak | Medium | Strong | VeryStrong | UltraStrong

  function StrengthName(s: Strength): string {
    match s
    case Weak => "Weak"
    case Medium => "Medium"
    case Strong => "Strong"
    case VeryStrong => "Very Strong"
    case UltraStrong => "Ultra Strong"
  }

  function Rank(s: Strength): nat {
    match s
    case Weak => 0
    case Medium => 1
    case Strong => 2
    case VeryStrong => 3
    case UltraStrong => 4
  }

  /** The label thresholds 40, 60, 80 and 100. */
  function Label(bits: int): (r: Strength)
    ensures Rank(r) == (if bits >= 100 then 4 else if bits >= 80 then 3 else if bits >= 60 then 2 else if bits >= 40 then 1 else 0)
  {
    if bits >= 100 then UltraStrong
    else if bits >= 80 then VeryStrong
    else if bits >= 60 then Strong
    else if bits >= 40 then Medium
    else Weak
  }

  /** More bits never give a weaker label. */
  lemma LabelMonotone(a: int, b: int)
    requires a <= b
    ensures Rank(Label(a)) <= Rank(Label(b))
  {
  }

  /** Each threshold is exactly where its label starts. */
  lemma LabelThresholds(bits: int)
    ensures Label(bits) == UltraStrong <==> bits >= 100
    ensures Label(bits) == Weak <==> bits < 40
    ensures Label(bits) == Medium <==> 40 <= bits < 60
  {
  }

  /** `calculatePasswordStrength`, scanning the password once. */
  method CalculateStrength(pw: string) returns (bits: nat, strength: Strength)
    ensures bits == Bits(pw) && strength == Label(bits)
    ensures |pw| <= bits <= 4 * |pw|
  {
    bits := 0;
    var i := 0;
    while i < |pw|
      invariant 0 <= i <= |pw|
      invariant bits == Bits(pw[..i])
    {
      BitsAppend(pw[..i], [pw[i]]);
      assert pw[..i] + [pw[i]] == pw[..i + 1];
      bits := bits + CharBits(pw[i]);
      i := i + 1;
    }
    assert pw[..i] == pw;
    strength := Label(bits);
  }

  datatype Password = Password(value: string, bits: nat, strength: Strength)

  /** What every generated password satisfies under settings `st`. */
  predicate WellFormed(st: Settings, p: Password) {
    |p.value| == st.length &&
    (forall i :: 0 <= i < |p.value| ==> p.value[i] in Charset(st)) &&
    (st.uniqueChars ==> NoDup(p.value)) &&
    p.bits == Bits(p.value) && p.strength == Label(p.bits)
  }

  /** The random source: the 32-bit value drawn for password `i` at step `j`. */
  type Draws = (nat, nat) -> nat

  function Swap(a: string, p: nat, q: nat): (r: string)
    requires p < |a| && q < |a|
    ensures |r| == |a| && r[p] == a[q] && r[q] == a[p]
    ensures forall i :: 0 <= i < |a| && i != p && i != q ==> r[i] == a[i]
    ensures multiset(r) == multiset(a)
  {
    a[p := a[q]][q := a[p]]
  }

  lemma SwapKeepsNoDup(a: string, p: nat, q: nat)
    requires p < |a| && q < |a| && NoDup(a)
    ensures NoDup(Swap(a, p, q))
  {
    var r := Swap(a, p, q);
    forall x, y | 0 <= x < y < |r|
      ensures r[x] != r[y]
    {
      var x' := if x == p then q else if x == q then p else x;
      var y' := if y == p then q else if y == q then p else y;
      assert r[x] == a[x'] && r[y] == a[y'] && x' != y';
    }
  }

  /** The Fisher-Yates pass of unique mode: j from the last position down to 1, swapping
      with the position `draw % (j + 1)`. */
  method Shuffle(cs: string, draws: Draws, i: nat) returns (a: string)
    ensures multiset(a) == multiset(cs) && |a| == |cs|
    ensures NoDup(cs) ==> NoDup(a)
  {
    a := cs;
    var j := |a| - 1;
    while j > 0
      invariant |a| == |cs| && j < |a|
      invariant multiset(a) == multiset(cs)
      invariant NoDup(cs) ==> NoDup(a)
    {
      var k := draws(i, j) % (j + 1);
      if NoDup(a) {
        SwapKeepsNoDup(a, j, k);
      }
      a := Swap(a, j, k);
      j := j - 1;
    }
  }

  /** A shuffled pool keeps exactly its characters. */
  lemma PermutationKeepsMembers(a: string, b: string)
    requires multiset(a) == multiset(b)
    ensures forall c :: c in a <==> c in b
  {
    assert forall c :: c in a <==> c in multiset(a);
    assert forall c :: c in b <==> c in multiset(b);
  }

  /** The other mode: `length` independent picks `charset[draw % |charset|]`. */
  function DrawnPassword(cs: string, len: nat, draws: Draws, i: nat): (r: string)
    requires |cs| > 0
    ensures |r| == len && forall k :: 0 <= k < len ==> r[k] in cs
  {
    seq(len, j requires 0 <= j < len => cs[draws(i, j) % |cs|])
  }

  /** The most 32-bit words one `crypto.getRandomValues` call may fill: the Web Crypto API
      refuses a view of more than 65536 bytes with a QuotaExceededError. */
  const RandomQuotaWords: nat := 65536 / 4

  const QuotaExceeded: Thrown := ErrorObject("QuotaExceededError")

  /** The non-unique mode asks for `length` random words in one call. */
  predicate OverQuota(st: Settings) {
    !st.uniqueChars && st.length > RandomQuotaWords
  }

  /** One password of `generatePasswords`, with its strength. The unique mode draws one word
      per swap; the other mode draws all `length` words at once, which fails over the quota. */
  method MakePassword(st: Settings, draws: Draws, i: nat) returns (p: Result<Password>)
    requires IsGenerationPossible(st)
    ensures p.Err? <==> OverQuota(st)
    ensures p.Err? ==> p.thrown == QuotaExceeded
    ensures p.Ok? ==> WellFormed(st, p.value)
  {
    var cs := Charset(st);
    var value: string;
    if st.uniqueChars {
      var shuffled := Shuffle(cs, draws, i);
      PermutationKeepsMembers(shuffled, cs);
      value := shuffled[..st.length];
    } else if st.length > RandomQuotaWords {
      return Err(QuotaExceeded);
    } else {
      value := DrawnPassword(cs, st.length, draws, i);
    }
    var bits, strength := CalculateStrength(value);
    p := Ok(Password(value, bits, strength));
  }

  /** `generatePasswords`: nothing when generation is impossible; otherwise `count`
      passwords, unless the first one already throws over the random-value quota, in which
      case the call throws and no password is produced. */
  method GeneratePasswords(st: Settings, draws: Draws) returns (ps: Result<seq<Password>>)
    ensures !IsGenerationPossible(st) ==> ps == Ok([])
    ensures IsGenerationPossible(st) ==> (ps.Err? <==> st.count > 0 && OverQuota(st))
    ensures ps.Err? ==> ps.thrown == QuotaExceeded
    ensures IsGenerationPossible(st) && ps.Ok? ==> |ps.value| == (if st.count > 0 then st.count else 0)
    ensures ps.Ok? ==> forall k :: 0 <= k < |ps.value| ==> WellFormed(st, ps.value[k])
  {
    if !IsGenerationPossible(st) {
      return Ok([]);
    }
    var acc: seq<Password> := [];
    var i := 0;
    while i < st.count
      invariant 0 <= i <= (if st.count > 0 then st.count else 0) && |acc| == i
      invariant OverQuota(st) ==> i == 0
      invariant forall k :: 0 <= k < |acc| ==> WellFormed(st, acc[k])
    {
      var p := MakePassword(st, draws, i);
      if p.Err? {
        return Err(p.thrown);
      }
      acc := acc + [p.value];
      i := i + 1;
    }
    ps := Ok(acc);
  }

  datatype Generator = Generator(settings: Settings, passwords: seq<Password>)

  /** `restoreDefaultSymbols`. */
  function RestoreDefaultSymbols(g: Generator): (r: Generator)
    ensures r.settings.symbols == DefaultSymbols
    ensures r == g.(settings := g.settings.(symbols := DefaultSymbols))
  {
    g.(settings := g.settings.(symbols := DefaultSymbols))
  }

  /** `resetSettings`: every setting back to its default, no passwords. */
  function ResetSettings(g: Generator): (r: Generator)
    ensures r.settings.length == 16 && r.settings.count == 1
    ensures r.settings.uppercase && r.settings.lowercase && r.settings.numbers && r.settings.symbolsEnabled
    ensures r.settings.symbols == DefaultSymbols && r.settings.omit == "" && r.settings.uniqueChars
    ensures r.passwords == []
  {
    Generator(Defaults, [])
  }

  /** Resetting forgets everything: any two generators reset to the same one. */
  lemma ResetForgetsState(g: Generator, h: Generator)
    ensures ResetSettings(g) == ResetSettings(h)
    ensures ResetSettings(ResetSettings(g)) == ResetSettings(g)
  {
  }
}
