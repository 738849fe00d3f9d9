/** Room codes: base-17 digits, spelled with an alphabet that turns after every digit. */
module RoomCodes {
  import opened Bits
  import opened Numbers
  import opened Wrappers

  const ALPHABET: string := "GQ0WBLJ2XRT54H8N3"
  const BASE: nat := 17
  const BUFFER: nat := 32

  // ---------- The code ----------

  function Value(digits: seq<nat>): nat {
    if digits == [] then 0 else digits[0] + BASE * Value(digits[1..])
  }

  // The digits of a number, lowest first, without zeros at the end.
  function Digits(v: nat): seq<nat> {
    if v == 0 then [] else [v % BASE] + Digits(v / BASE)
  }

  function Turned(chars: string, n: nat): (r: string)
    requires n <= |chars|
    ensures |r| == |chars|
  {
    chars[n..] + chars[..n]
  }

  ghost predicate Alphabet(chars: string) {
    |chars| == BASE && forall i, j :: 0 <= i < j < |chars| ==> chars[i] != chars[j]
  }

  ghost predicate AllDigits(digits: seq<nat>) {
    forall i :: 0 <= i < |digits| ==> digits[i] < BASE
  }

  // After a digit the alphabet starts with the letter after the one just used.
  function Spelled(chars: string, digits: seq<nat>): (s: string)
    requires |chars| == BASE && AllDigits(digits)
    ensures |s| == |digits|
    decreases |digits|
  {
    if digits == [] then [] else [chars[digits[0]]] + Spelled(Turned(chars, (digits[0] + 1) % BASE), digits[1..])
  }

  function IndexOf(chars: string, c: char): (r: Option<nat>)
    ensures r.Some? ==> r.value < |chars| && chars[r.value] == c
    ensures r.None? ==> c !in chars
    ensures r.Some? ==> forall j :: 0 <= j < r.value ==> chars[j] != c
  {
    if chars == [] then None
    else if chars[0] == c then Some(0)
    else match IndexOf(chars[1..], c) case Some(i) => Some(i + 1) case None => None
  }

  function Read(chars: string, s: string): Option<seq<nat>>
    requires |chars| == BASE
    decreases |s|
  {
    if s == [] then Some([])
    else match IndexOf(chars, s[0])
      case None => None
      case Some(i) =>
        match Read(Turned(chars, (i + 1) % BASE), s[1..])
        case None => None
        case Some(ds) => Some([i] + ds)
  }

  // ---------- Its properties ----------

  lemma TurnedAlphabet(chars: string, n: nat)
    requires Alphabet(chars) && n < BASE
    ensures Alphabet(Turned(chars, n))
  {
    var r := Turned(chars, n);
    forall i, j | 0 <= i < j < |r| ensures r[i] != r[j] {
      assert r[i] == chars[if i < BASE - n then i + n else i - (BASE - n)];
      assert r[j] == chars[if j < BASE - n then j + n else j - (BASE - n)];
    }
  }

  lemma TheAlphabet()
    ensures Alphabet(ALPHABET)
  {
  }

  lemma {:induction false} DigitsOf(v: nat)
    ensures Value(Digits(v)) == v && AllDigits(Digits(v))
  {
    if v > 0 {
      DigitsOf(v / BASE);
    }
  }

  lemma {:induction false} FewDigits(v: nat, k: nat)
    requires v < Power(BASE, k)
    ensures |Digits(v)| <= k
  {
    if k > 0 && v > 0 {
      FewDigits(v / BASE, k - 1);
    }
  }

  lemma SixteenDigits(v: nat)
    requires v < WORD
    ensures |Digits(v)| <= 16
  {
    assert Power(BASE, 4) == 83521;
    assert Power(BASE, 8) == 6975757441;
    assert Power(BASE, 12) == 582622237229761;
    assert Power(BASE, 16) == 48661191875666868481;
    FewDigits(v, 16);
  }

  /** What is spelled can be read back. */
  lemma {:induction false} ReadSpelled(chars: string, digits: seq<nat>)
    requires |chars| == BASE && Alphabet(chars) && AllDigits(digits)
    ensures Read(chars, Spelled(chars, digits)) == Some(digits)
    decreases |digits|
  {
    hide Turned, IndexOf, Alphabet;
    if digits != [] {
      var d := digits[0];
      var rest := Turned(chars, (d + 1) % BASE);
      TurnedAlphabet(chars, (d + 1) % BASE);
      ReadSpelled(rest, digits[1..]);
      IndexOfLetter(chars, d);
      assert Spelled(chars, digits)[1..] == Spelled(rest, digits[1..]);
      assert [d] + digits[1..] == digits;
    }
  }

  lemma IndexOfLetter(chars: string, d: nat)
    requires Alphabet(chars) && d < BASE
    ensures IndexOf(chars, chars[d]) == Some(d)
  {
    hide IndexOf;
  }

  lemma SpelledMore(chars: string, i: nat, ds: seq<nat>)
    requires |chars| == BASE && i < BASE && AllDigits(ds)
    ensures AllDigits([i] + ds)
    ensures Spelled(chars, [i] + ds) == [chars[i]] + Spelled(Turned(chars, (i + 1) % BASE), ds)
  {
    hide Turned;
    assert ([i] + ds)[1..] == ds;
  }

  /** And what can be read is spelled that way and no other. */
  lemma {:induction false} SpelledRead(chars: string, s: string)
    requires |chars| == BASE
    ensures Read(chars, s).Some? ==> AllDigits(Read(chars, s).value) && Spelled(chars, Read(chars, s).value) == s
    decreases |s|
  {
    hide Turned, IndexOf;
    if s != [] && IndexOf(chars, s[0]).Some? {
      var i := IndexOf(chars, s[0]).value;
      var turned := Turned(chars, (i + 1) % BASE);
      SpelledRead(turned, s[1..]);
      if Read(turned, s[1..]).Some? {
        SpelledMore(chars, i, Read(turned, s[1..]).value);
        assert s == [s[0]] + s[1..];
      }
    }
  }

  // ---------- Letters by number ----------

  // The base-17 digit at place j of a number.
  function DigitAt(v: nat, j: nat): nat { v / Power(BASE, j) % BASE }

  function DigitsTo(v: nat, n: nat): (ds: seq<nat>)
    ensures |ds| == n
  {
    seq(n, j requires 0 <= j => DigitAt(v, j))
  }

  // How far the alphabet has turned before digit j, from k on: every digit turns it by one more.
  function Start(k: nat, ds: seq<nat>, j: nat): nat
    requires j <= |ds|
  {
    if j == 0 then k else Start(k, ds, j - 1) + ds[j - 1] + 1
  }

  /** A code that starts at place k of the alphabet: each further letter lies as many places after
      the letter before it as its digit says, and one more. */
  ghost predicate Shows(s: string, k: nat, ds: seq<nat>) {
    && k < BASE && |s| == |ds| + 1 && s[0] == ALPHABET[k]
    && forall j :: 0 <= j < |ds| ==> ds[j] < BASE && s[j + 1] == ALPHABET[(Start(k, ds, j) + ds[j]) % BASE]
  }

  lemma TurnedAt(n: nat, i: nat)
    requires i < BASE
    ensures Turned(ALPHABET, n % BASE)[i] == ALPHABET[(n + i) % BASE]
  {
    TurnedFrom(ALPHABET, n % BASE, i);
    ModSum(n, i);
  }

  lemma ModSum(a: nat, b: nat)
    ensures (a % BASE + b) % BASE == (a + b) % BASE
  {
    Multiples(BASE, a / BASE, a % BASE + b);
  }

  // Turning twice is turning by the sum.
  lemma TurnedTwice(n: nat, d: nat)
    requires d < BASE
    ensures Turned(Turned(ALPHABET, n % BASE), (d + 1) % BASE) == Turned(ALPHABET, (n + d + 1) % BASE)
  {
    hide Turned;
    var once, e := Turned(ALPHABET, n % BASE), (d + 1) % BASE;
    forall i | 0 <= i < BASE
      ensures Turned(once, e)[i] == Turned(ALPHABET, (n + d + 1) % BASE)[i]
    {
      TurnedFrom(once, e, i);
      TurnedAt(n, (e + i) % BASE);
      TurnedAt(n + d + 1, i);
      ModSum(d + 1, i);
      ModLast(n, d + 1 + i);
    }
  }

  lemma TurnedFrom(chars: string, n: nat, i: nat)
    requires |chars| == BASE && n < BASE && i < BASE
    ensures Turned(chars, n)[i] == chars[(n + i) % BASE]
  {
    if n + i >= BASE {
      assert (n + i) % BASE == n + i - BASE;
    }
  }

  lemma ModLast(a: nat, b: nat)
    ensures (a + b % BASE) % BASE == (a + b) % BASE
  {
    Multiples(BASE, b / BASE, a + b % BASE);
  }

  lemma {:induction false} StartNext(k: nat, ds: seq<nat>, j: nat)
    requires ds != [] && j < |ds|
    ensures Start(k, ds, j + 1) == Start(k + ds[0] + 1, ds[1..], j)
  {
    if j > 0 {
      StartNext(k, ds, j - 1);
    }
  }

  lemma {:induction false} SpelledAt(n: nat, ds: seq<nat>, j: nat)
    requires AllDigits(ds) && j < |ds|
    ensures Spelled(Turned(ALPHABET, n % BASE), ds)[j] == ALPHABET[(Start(n, ds, j) + ds[j]) % BASE]
    decreases |ds|
  {
    hide Turned;
    if j == 0 {
      TurnedAt(n, ds[0]);
    } else {
      TurnedTwice(n, ds[0]);
      SpelledAt(n + ds[0] + 1, ds[1..], j - 1);
      StartNext(n, ds, j - 1);
    }
  }

  lemma SpelledShows(k: nat, ds: seq<nat>)
    requires k < BASE && AllDigits(ds)
    ensures Shows([ALPHABET[k]] + Spelled(Turned(ALPHABET, k), ds), k, ds)
  {
    hide Turned, Start, Spelled;
    var t := Spelled(Turned(ALPHABET, k), ds);
    forall j | 0 <= j < |ds|
      ensures ([ALPHABET[k]] + t)[j + 1] == ALPHABET[(Start(k, ds, j) + ds[j]) % BASE]
    {
      LaterLetter(ALPHABET[k], t, j);
      SpelledAt(k, ds, j);
    }
  }

  lemma LaterLetter(c: char, t: string, j: nat)
    requires j < |t|
    ensures ([c] + t)[j + 1] == t[j]
  {
  }

  /** The digits that a code is made of are those of the number, and there are no more than needed. */
  lemma {:induction false} DigitsAre(v: nat)
    ensures var n := |Digits(v)|;
      Digits(v) == DigitsTo(v, n) && v < Power(BASE, n) && (n > 0 ==> Power(BASE, n - 1) <= v)
  {
    if v > 0 {
      var rest, n := v / BASE, |Digits(v / BASE)|;
      DigitsAre(rest);
      forall j | 0 <= j < n ensures DigitAt(v, j + 1) == DigitAt(rest, j) {
        DividedTwice(v, BASE, Power(BASE, j));
      }
      assert DigitAt(v, 0) == v % BASE;
      Scaled(v, Power(BASE, n), if n > 0 then Power(BASE, n - 1) else 0);
    }
  }

  lemma Scaled(v: nat, hi: nat, lo: nat)
    ensures v / BASE < hi ==> v < BASE * hi
    ensures lo <= v / BASE ==> BASE * lo <= v
  {
  }

  /** Every sequence of digits stands for the number that has them at its places. */
  lemma {:induction false} ValueHas(ds: seq<nat>)
    requires AllDigits(ds)
    ensures Value(ds) < Power(BASE, |ds|) && DigitsTo(Value(ds), |ds|) == ds
  {
    if ds != [] {
      var rest, v := ds[1..], Value(ds);
      ValueHas(rest);
      assert v / BASE == Value(rest) && v % BASE == ds[0];
      forall j | 0 <= j < |rest| ensures DigitAt(v, j + 1) == rest[j] {
        DividedTwice(v, BASE, Power(BASE, j));
        assert DigitsTo(Value(rest), |rest|)[j] == DigitAt(Value(rest), j);
      }
      assert DigitAt(v, 0) == ds[0];
      Scaled(v, Power(BASE, |rest|), 0);
    }
  }

  lemma TurnedHas(n: nat, c: char)
    requires n < BASE
    ensures c in Turned(ALPHABET, n) <==> c in ALPHABET
  {
    assert ALPHABET == ALPHABET[..n] + ALPHABET[n..];
  }

  ghost predicate Letters(s: string) { forall i :: 0 <= i < |s| ==> s[i] in ALPHABET }

  lemma NoLetters()
    ensures Letters([])
  {
  }

  lemma LettersFirst(s: string)
    requires s != []
    ensures Letters(s) <==> s[0] in ALPHABET && Letters(s[1..])
  {
    assert s == [s[0]] + s[1..];
  }

  lemma {:induction false} ReadWhole(n: nat, s: string)
    ensures Read(Turned(ALPHABET, n % BASE), s).Some? <==> Letters(s)
    decreases |s|
  {
    hide Turned, IndexOf, Letters;
    if s == [] {
      NoLetters();
    } else {
      LettersFirst(s);
      TurnedHas(n % BASE, s[0]);
      var d := IndexOf(Turned(ALPHABET, n % BASE), s[0]);
      if d.Some? {
        TurnedTwice(n, d.value);
        ReadWhole(n + d.value + 1, s[1..]);
      }
    }
  }

  // ---------- The mask ----------

  // The fixed number turned left by k bits, different for each place of the alphabet.
  function Mask(k: nat): (m: nat)
    requires k < BASE
    ensures m < WORD
  {
    (MAGIC * Power(2, k) + MAGIC / Power(2, 64 - k)) % WORD
  }

  const MAGIC: nat := 0xb236fdfa7ea1e492

  // One bit to the left, and the highest bit comes in at the lowest place.
  function TurnedLeft(m: nat): nat { m * 2 % WORD + m / 0x8000_0000_0000_0000 }

  lemma {:induction false} PowerSum(a: nat, b: nat)
    ensures Power(2, a + b) == Power(2, a) * Power(2, b)
  {
    if a > 0 {
      PowerSum(a - 1, b);
      assert 2 * (Power(2, a - 1) * Power(2, b)) == (2 * Power(2, a - 1)) * Power(2, b);
    }
  }

  // A number m = h * q + l turned left in a word of p * q: h comes in below l.
  lemma PartsTurned(m: nat, p: nat, q: nat, h: nat, l: nat)
    requires m == h * q + l && l < q && h < p
    ensures 0 < q && 0 < q * p && m / q == h && (m * p + h) % (q * p) == l * p + h < q * p
  {
    Spread(h, q, l, p);
    assert p * q == q * p;
    Divided(m, q, h, l);
    ProductBelow(l, q, h, p);
    Divided(m * p + h, q * p, h, l * p + h);
  }

  lemma MaskIs(k: nat, p: nat, q: nat, h: nat, l: nat)
    requires k < BASE && p == Power(2, k) && q == Power(2, 64 - k) && MAGIC == h * q + l && l < q && h < p
    ensures Mask(k) == l * p + h
  {
    PowersOf2();
    PowerSum(k, 64 - k);
    PartsTurned(MAGIC, p, q, h, l);
    hide Power;
    assert p * q == q * p;
  }

  /** The mask at each place is the one before it turned by one more bit. */
  lemma MaskTurns(k: nat)
    requires k < BASE
    ensures Mask(0) == MAGIC && (0 < k ==> Mask(k) == TurnedLeft(Mask(k - 1)))
  {
    PowersOf2();
    PowerZero();
    hide Power, Mask, TurnedLeft;
    MaskIs(0, 1, WORD, 0, MAGIC);
    if k > 0 {
      var p, q := Power(2, k - 1), Power(2, 64 - k);
      var h, l := MAGIC / q, MAGIC % q;
      PowersAround(k);
      HalvesOf(MAGIC, p, q);
      MaskIs(k, 2 * p, q, h, l);
      MaskIs(k - 1, p, 2 * q, h / 2, h % 2 * q + l);
      TurnsOne(h, l, p, q);
    }
  }

  lemma PowersAround(k: nat)
    requires 0 < k < BASE
    ensures Power(2, k) == 2 * Power(2, k - 1) && Power(2, 65 - k) == 2 * Power(2, 64 - k)
    ensures Power(2, 64 - k) * Power(2, k - 1) == WORD / 2
  {
    PowerSum(64 - k, k - 1);
    PowersOf2();
    assert Power(2, 64) == 2 * Power(2, 63);
  }

  // The parts of a number below 2 * p * q, and its parts one bit further up.
  lemma HalvesOf(m: nat, p: nat, q: nat)
    requires 0 < q && m < 2 * (q * p)
    ensures var h, l := m / q, m % q;
      && m == h * q + l && l < q && h < 2 * p
      && m == h / 2 * (2 * q) + (h % 2 * q + l) && h % 2 * q + l < 2 * q && h / 2 < p
  {
    var h, l := m / q, m % q;
    DivMod(m, q);
    assert 2 * (q * p) == 2 * p * q;
    SmallQuotient(h, 2 * p, q);
    Spread(h / 2, 2, h % 2, q);
    assert h == h / 2 * 2 + h % 2;
    OneOrNone(h % 2, q);
  }

  lemma SmallQuotient(h: nat, c: nat, q: nat)
    requires h * q < c * q
    ensures h < c
  {
    TimesMore(c, h, q);
  }

  lemma OneOrNone(b: nat, q: nat)
    requires b < 2
    ensures b * q <= q
  {
  }

  lemma TurnsOne(h: nat, l: nat, p: nat, q: nat)
    requires q * p == WORD / 2 && l < q && h < 2 * p
    ensures TurnedLeft((h % 2 * q + l) * p + h / 2) == l * (2 * p) + h
  {
    var m, b, low := (h % 2 * q + l) * p + h / 2, h % 2, l * p + h / 2;
    ProductBelow(l, q, h / 2, p);
    Spread(b, q, l, p);
    assert p * q == q * p;
    TopBit(m, b, low);
    assert l * (2 * p) == 2 * (l * p);
  }

  lemma TopBit(m: nat, b: nat, low: nat)
    requires m == b * (WORD / 2) + low && b < 2 && low < WORD / 2
    ensures TurnedLeft(m) == 2 * low + b
  {
  }

  // ---------- Codes of room numbers ----------

  // The code of a 64-bit room number at place k of the alphabet.
  function Encoded(room: nat, k: nat): (s: string)
    requires k < BASE
  {
    DigitsOf(Xor(room, Mask(k)));
    [ALPHABET[k]] + Spelled(Turned(ALPHABET, k), Digits(Xor(room, Mask(k))))
  }

  // What a code stands for: the first letter says where the alphabet starts.
  function Decoded(s: string): Option<nat> {
    if s == [] then None
    else match IndexOf(ALPHABET, s[0])
      case None => None
      case Some(k) => match Read(Turned(ALPHABET, k), s[1..])
        case None => None
        case Some(ds) => Some(Xor(Value(ds) % WORD, Mask(k)))
  }

  /** The letters of a code, by the digits of the masked number. */
  lemma EncodedShows(room: nat, k: nat)
    requires k < BASE
    ensures var s, v := Encoded(room, k), Xor(room, Mask(k));
      && |s| >= 1 && Shows(s, k, DigitsTo(v, |s| - 1))
      && v < Power(BASE, |s| - 1) && (|s| > 1 ==> Power(BASE, |s| - 2) <= v)
  {
    hide Spelled, Digits, Xor, Mask, Turned, Power, DigitsTo, Shows;
    var v := Xor(room, Mask(k));
    DigitsOf(v);
    DigitsAre(v);
    SpelledShows(k, Digits(v));
  }

  // What a code is decoded to: it shows some digits, and they are those of the masked number.
  ghost predicate StandsFor(s: string, x: nat) {
    exists k, ds :: Shows(s, k, ds) && x == Xor(Value(ds) % WORD, Mask(k))
  }

  /** A code can be decoded exactly when all its letters are in the alphabet, and then it shows
      what it stands for. */
  lemma DecodedShows(s: string)
    ensures Decoded(s).Some? <==> s != [] && Letters(s)
    ensures Decoded(s).Some? ==> StandsFor(s, Decoded(s).value)
  {
    hide Read, IndexOf, Xor, Mask, Value, Turned, Shows, Spelled, Letters;
    if s != [] {
      LettersFirst(s);
    }
    if s != [] && IndexOf(ALPHABET, s[0]).Some? {
      var k := IndexOf(ALPHABET, s[0]).value;
      ReadWhole(k, s[1..]);
      assert s == [s[0]] + s[1..];
      var r := Read(Turned(ALPHABET, k), s[1..]);
      SpelledRead(Turned(ALPHABET, k), s[1..]);
      if r.Some? {
        SpelledShows(k, r.value);
        assert Shows(s, k, r.value);
      }
    }
  }

  /** Decoding undoes encoding for every 64-bit number at every place, and codes are short. */
  lemma DecodesEncoded(room: nat, k: nat)
    requires room < WORD && k < BASE
    ensures Decoded(Encoded(room, k)) == Some(room) && |Encoded(room, k)| <= 1 + 16
  {
    hide Read, Spelled, Digits, Xor, Mask, Value, Turned, Power;
    var v := Xor(room, Mask(k));
    PowersOf2();
    XorFits(room, Mask(k), 64);
    TheAlphabet();
    FirstLetter(k);
    TurnedAlphabet(ALPHABET, k);
    DigitsOf(v);
    ReadSpelled(Turned(ALPHABET, k), Digits(v));
    SixteenDigits(v);
    XorTwice(room, Mask(k));
    assert Encoded(room, k)[1..] == Spelled(Turned(ALPHABET, k), Digits(v));
  }

  lemma FirstLetter(k: nat)
    requires k < BASE
    ensures IndexOf(ALPHABET, ALPHABET[k]) == Some(k)
  {
    hide IndexOf;
    TheAlphabet();
  }

  // ---------- The program ----------

  /** One line of the display: the letters are written as the digits come off the number. */
  method ShowRoom(room: nat, i: nat) returns (roomCode: string)
    requires room < WORD
    ensures roomCode == Encoded(room, (i + 1) % BASE) && 1 <= |roomCode| < BUFFER
    ensures var k, n := (i + 1) % BASE, |roomCode| - 1;
      var v := Xor(room, Mask(k));
      && Shows(roomCode, k, DigitsTo(v, n)) && v < Power(BASE, n) && (n > 0 ==> Power(BASE, n - 1) <= v)
  {
    hide Digits, Xor, Mask, Turned, Power, Shows, DigitsTo;
    EncodedShows(room, (i + 1) % BASE);
    var roomChar := (i + 1) % BASE;
    var roomID: nat := Xor(room, Mask(roomChar));
    DigitsOf(roomID);
    DecodesEncoded(room, roomChar);
    ghost var chars0, v := Turned(ALPHABET, roomChar), roomID;
    var roomChars := Turned(ALPHABET, roomChar);
    assert roomChars[0] == ALPHABET[roomChar] by { TurnedStart(ALPHABET, roomChar); }
    roomCode := [roomChars[0]];
    while roomID != 0
      invariant |roomChars| == BASE && AllDigits(Digits(roomID)) && AllDigits(Digits(v))
      invariant [ALPHABET[roomChar]] + Spelled(chars0, Digits(v)) == roomCode + Spelled(roomChars, Digits(roomID))
      decreases roomID
    {
      NextDigit(roomID);
      var digit := roomID % BASE;
      roomID := (roomID - digit) / BASE;
      roomCode := roomCode + [roomChars[digit]];
      roomChars := Turned(roomChars, (digit + 1) % BASE);
    }
    NoDigits();
  }

  lemma TurnedStart(chars: string, n: nat)
    requires n < |chars|
    ensures Turned(chars, n)[0] == chars[n]
  {
  }

  lemma NoDigits()
    ensures Digits(0) == []
  {
  }

  lemma NextDigit(v: nat)
    requires v != 0
    ensures (v - v % BASE) / BASE == v / BASE < v && Digits(v) == [v % BASE] + Digits(v / BASE)
    ensures AllDigits(Digits(v / BASE))
  {
    DigitsOf(v / BASE);
  }

  // The place of a letter, or the length when it is not there.
  method Find(chars: string, c: char) returns (i: nat)
    ensures IndexOf(chars, c) == if i < |chars| then Some(i) else None
    ensures i <= |chars|
  {
    i := 0;
    while i < |chars| && chars[i] != c
      invariant i <= |chars|
      invariant IndexOf(chars, c) == match IndexOf(chars[i..], c) case Some(k) => Some(i + k) case None => None
    {
      assert chars[i..][1..] == chars[i + 1..];
      i := i + 1;
    }
  }

  // The digits of a code's letters, as both decoders collect them.
  method ReadLetters(chars: string, s: string) returns (r: Option<seq<nat>>)
    requires |chars| == BASE
    ensures r == Read(chars, s)
  {
    hide Turned, IndexOf;
    var roomChars, x := chars, 0;
    var roomCode: seq<nat> := [];
    assert s[0..] == s;
    AfterNothing(Read(chars, s));
    while x < |s|
      invariant x <= |s| && |roomChars| == BASE
      invariant Read(chars, s) == After(roomCode, Read(roomChars, s[x..]))
    {
      assert s[x..][0] == s[x] && s[x..][1..] == s[x + 1..];
      var i := Find(roomChars, s[x]);
      if i >= |roomChars| {
        return None;
      }
      LetterRead(roomChars, s[x..], roomCode, i);
      roomCode := roomCode + [i];
      roomChars := Turned(roomChars, (i + 1) % BASE);
      x := x + 1;
    }
    assert roomCode + [] == roomCode;
    r := Some(roomCode);
  }

  // The digits read before come in front.
  function After(before: seq<nat>, r: Option<seq<nat>>): Option<seq<nat>> {
    match r case Some(ds) => Some(before + ds) case None => None
  }

  lemma AfterNothing(r: Option<seq<nat>>)
    ensures After([], r) == r
  {
    if r.Some? { assert [] + r.value == r.value; }
  }

  lemma LetterRead(chars: string, s: string, before: seq<nat>, i: nat)
    requires |chars| == BASE && s != [] && IndexOf(chars, s[0]) == Some(i)
    ensures After(before, Read(chars, s)) == After(before + [i], Read(Turned(chars, (i + 1) % BASE), s[1..]))
  {
    hide Turned, IndexOf;
    match Read(Turned(chars, (i + 1) % BASE), s[1..])
    case Some(ds) => assert before + ([i] + ds) == before + [i] + ds;
    case None =>
  }

  /** The keypad: 64-bit arithmetic from the last digit back. Longer input than the program's
      buffer is refused. */
  method Keypad(input: string) returns (r: Option<nat>)
    ensures r == if |input| > BUFFER then None else Decoded(input)
    ensures r.Some? <==> 0 < |input| <= BUFFER && forall i :: 0 <= i < |input| ==> input[i] in ALPHABET
    ensures r.Some? ==> StandsFor(input, r.value)
  {
    DecodedShows(input);
    if |input| > BUFFER || |input| == 0 {
      return None;
    }
    hide Read, IndexOf, Turned, Xor, Mask, Value, StandsFor;
    var i := Find(ALPHABET, input[0]);
    if i >= |ALPHABET| {
      return None;
    }
    var roomCode := ReadLetters(Turned(ALPHABET, i), input[1..]);
    if roomCode.None? {
      return None;
    }
    var keyValue := KeyValueOf(roomCode.value);
    r := Some(Xor(keyValue, Mask(i)));
  }

  method KeyValueOf(digits: seq<nat>) returns (keyValue: nat)
    ensures keyValue == Value(digits) % WORD
  {
    hide Value, TimesPlus;
    NoValue();
    var x: nat := |digits|;
    keyValue := 0;
    assert digits[x..] == [];
    while x > 0
      invariant x <= |digits| && keyValue == Value(digits[x..]) % WORD
    {
      x := x - 1;
      NextValue(digits, x);
      HornerWord(digits[x], Value(digits[x + 1..]));
      keyValue := TimesPlus(keyValue, digits[x]);
    }
    assert digits[0..] == digits;
  }

  // One step of the keypad's 64-bit arithmetic.
  function TimesPlus(keyValue: nat, digit: nat): nat { (keyValue * BASE % WORD + digit) % WORD }

  lemma NextValue(digits: seq<nat>, x: nat)
    requires x < |digits|
    ensures Value(digits[x..]) == digits[x] + BASE * Value(digits[x + 1..])
  {
    assert digits[x..][1..] == digits[x + 1..];
  }

  lemma NoValue()
    ensures Value([]) == 0
  {
  }

  lemma HornerWord(d: nat, v: nat)
    ensures TimesPlus(v % WORD, d) == (d + BASE * v) % WORD
  {
    var q, r := v / WORD, v % WORD;
    assert v == q * WORD + r;
    var t, u := r * BASE / WORD, r * BASE % WORD;
    assert r * BASE == t * WORD + u;
    Multiples(WORD, BASE * q + t, u + d);
    assert d + BASE * v == (BASE * q + t) * WORD + (u + d);
  }

  /** The script's decoder: unbounded arithmetic, cut to 64 bits at the end. A letter that is
      not in the alphabet, or an empty code, raises an exception, here None. It agrees with the
      keypad on every code that the keypad takes in. */
  method ConvertRoomIDToMem(roomID: string) returns (r: Option<nat>)
    ensures r == Decoded(roomID)
    ensures r.Some? <==> 0 < |roomID| && forall i :: 0 <= i < |roomID| ==> roomID[i] in ALPHABET
    ensures r.Some? ==> StandsFor(roomID, r.value)
  {
    DecodedShows(roomID);
    if |roomID| == 0 {
      return None;
    }
    hide Read, IndexOf, Turned, Xor, Mask, StandsFor;
    var firstCharIndex := Find(ALPHABET, roomID[0]);
    if firstCharIndex >= |ALPHABET| {
      return None;
    }
    var letters := ReadLetters(Turned(ALPHABET, firstCharIndex), roomID[1..]);
    if letters.None? {
      return None;
    }
    var roomCode, keyValue := letters.value, 0;
    while roomCode != []
      invariant roomCode <= letters.value && keyValue == Value(letters.value[|roomCode|..])
      decreases |roomCode|
    {
      var n := |roomCode| - 1;
      assert letters.value[n..][1..] == letters.value[n + 1..];
      keyValue := keyValue * BASE;
      keyValue := keyValue + roomCode[n];
      roomCode := roomCode[..n];
    }
    assert letters.value[0..] == letters.value;
    XorWord(keyValue, Mask(firstCharIndex));
    keyValue := Xor(keyValue, Mask(firstCharIndex)) % WORD;
    r := Some(keyValue);
  }
}
