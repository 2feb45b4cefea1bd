/** The keys under which the index is stored: how they are written and read back. */
module Keys {

  datatype Option<+T> = None | Some(value: T)

  newtype byte = x: int | 0 <= x < 256

  /** A document id: 32 bytes of a hash. */
  type DocId = s: seq<byte> | |s| == 32 witness seq(32, _ => 0)

  // ----- decimal numbers, padded to four digits

  function Decimal(n: nat): string {
    if n < 10 then ["0123456789"[n]] else Decimal(n / 10) + ["0123456789"[n % 10]]
  }

  function Zeros(n: nat): string {
    if n == 0 then "" else "0" + Zeros(n - 1)
  }

  function Padded(n: nat): string {
    var d := Decimal(n);
    if |d| < 4 then Zeros(4 - |d|) + d else d
  }

  function ValueOf(s: string): int {
    if s == [] then 0 else 10 * ValueOf(s[..|s| - 1]) + (s[|s| - 1] as int - '0' as int)
  }

  lemma {:induction false} DecimalReadsBack(n: nat)
    ensures ValueOf(Decimal(n)) == n
  {
    if n >= 10 {
      DecimalReadsBack(n / 10);
      assert Decimal(n)[..|Decimal(n)| - 1] == Decimal(n / 10);
    }
  }

  lemma {:induction false} LeadingZero(s: string)
    ensures ValueOf("0" + s) == ValueOf(s)
  {
    if s != [] {
      LeadingZero(s[..|s| - 1]);
      assert ("0" + s)[..|s|] == "0" + s[..|s| - 1];
    }
  }

  lemma {:induction false} ZerosReadBack(n: nat, s: string)
    ensures ValueOf(Zeros(n) + s) == ValueOf(s)
  {
    hide ValueOf;
    if n == 0 {
      assert Zeros(0) + s == s;
    } else {
      ZerosReadBack(n - 1, s);
      assert Zeros(n) + s == "0" + (Zeros(n - 1) + s);
      LeadingZero(Zeros(n - 1) + s);
    }
  }

  lemma {:induction false} ZerosLength(n: nat)
    ensures |Zeros(n)| == n
  {
    if n > 0 {
      ZerosLength(n - 1);
    }
  }

  lemma DecimalLength(n: nat)
    requires n < 10000
    ensures |Decimal(n)| <= 4
  {
    assert n / 10 < 1000 && n / 10 / 10 < 100 && n / 10 / 10 / 10 < 10;
    assert |Decimal(n / 10 / 10 / 10)| == 1;
    assert |Decimal(n / 10 / 10)| <= 2;
    assert |Decimal(n / 10)| <= 3;
  }

  /** Four digits at least, and no more for the numbers that have no more. */
  lemma PaddedLength(n: nat)
    ensures |Padded(n)| >= 4 && (n < 10000 ==> |Padded(n)| == 4)
  {
    if n < 10000 {
      DecimalLength(n);
    }
    if |Decimal(n)| < 4 {
      ZerosLength(4 - |Decimal(n)|);
    }
  }

  lemma PaddedReadsBack(n: nat)
    ensures ValueOf(Padded(n)) == n
  {
    DecimalReadsBack(n);
    var d := Decimal(n);
    if |d| < 4 {
      ZerosReadBack(4 - |d|, d);
    }
  }

  // ----- chunks of words filed under an n-gram

  function GramPrefix(ng: string): string {
    "ng:" + ng + ":"
  }

  function ChunkKey(ng: string, id: nat): string {
    GramPrefix(ng) + Padded(id)
  }

  /** A key names one chunk of one n-gram, and the scan for an n-gram meets the chunks of
      no other n-gram of the same length. */
  lemma ChunkKeyReadsBack(g: string, ng: string, id: nat)
    requires |g| == |ng|
    ensures "ng:" <= ChunkKey(ng, id)
    ensures GramPrefix(g) <= ChunkKey(ng, id) <==> g == ng
    ensures forall id': nat :: ChunkKey(g, id') == ChunkKey(ng, id) ==> g == ng && id' == id
  {
    var k, n := ChunkKey(ng, id), |g|;
    assert k[3..3 + n] == ng && GramPrefix(g)[3..3 + n] == g;
    if GramPrefix(g) <= k {
      assert k[..4 + n] == GramPrefix(g);
      assert k[3..3 + n] == GramPrefix(g)[3..3 + n];
    }
    forall id': nat | ChunkKey(g, id') == k
      ensures g == ng && id' == id
    {
      assert ChunkKey(g, id')[3..3 + n] == g;
      assert ChunkKey(g, id')[4 + n..] == Padded(id') && k[4 + n..] == Padded(id);
      PaddedReadsBack(id);
      PaddedReadsBack(id');
    }
  }

  // ----- hexadecimal document ids

  function HexDigit(n: nat): char
    requires n < 16
  {
    "0123456789abcdef"[n]
  }

  function HexPair(b: byte): string {
    [HexDigit(b as nat / 16), HexDigit(b as nat % 16)]
  }

  function Hex(bytes: seq<byte>): (s: string)
    ensures |s| == 2 * |bytes|
  {
    if bytes == [] then "" else HexPair(bytes[0]) + Hex(bytes[1..])
  }

  function DigitValue(c: char): (v: Option<nat>)
    ensures v.Some? ==> v.value < 16
  {
    if '0' <= c <= '9' then Some(c as nat - '0' as nat)
    else if 'a' <= c <= 'f' then Some(c as nat - 'a' as nat + 10)
    else if 'A' <= c <= 'F' then Some(c as nat - 'A' as nat + 10)
    else None
  }

  function UnhexPair(h: char, l: char): Option<byte> {
    match (DigitValue(h), DigitValue(l))
    case (Some(x), Some(y)) => Some((16 * x + y) as byte)
    case _ => None
  }

  /** Fails on an odd length and on any rune that is not a hexadecimal digit. */
  function Unhex(s: string): Option<seq<byte>> {
    if s == "" then Some([])
    else if |s| == 1 then None
    else
      match (UnhexPair(s[0], s[1]), Unhex(s[2..]))
      case (Some(b), Some(rest)) => Some([b] + rest)
      case _ => None
  }

  /** Copies at most 32 bytes into an id of zeros. */
  function ToId(bytes: seq<byte>): DocId {
    if |bytes| >= 32 then bytes[..32] else bytes + seq(32 - |bytes|, _ => 0)
  }

  lemma HexDigitReadsBack(n: nat)
    requires n < 16
    ensures DigitValue(HexDigit(n)) == Some(n)
  {
    if n < 10 {
      assert HexDigit(n) as nat == '0' as nat + n;
    } else {
      assert HexDigit(n) as nat == 'a' as nat + n - 10;
    }
  }

  lemma HexPairReadsBack(b: byte)
    ensures UnhexPair(HexPair(b)[0], HexPair(b)[1]) == Some(b)
  {
    HexDigitReadsBack(b as nat / 16);
    HexDigitReadsBack(b as nat % 16);
  }

  lemma {:induction false} HexReadsBack(bytes: seq<byte>)
    ensures Unhex(Hex(bytes)) == Some(bytes)
  {
    if bytes != [] {
      HexReadsBack(bytes[1..]);
      HexPairReadsBack(bytes[0]);
      assert Hex(bytes)[2..] == Hex(bytes[1..]);
      assert bytes == [bytes[0]] + bytes[1..];
    }
  }

  lemma {:induction false} HexHasNoUnderscore(bytes: seq<byte>)
    ensures '_' !in Hex(bytes)
  {
    if bytes != [] {
      HexHasNoUnderscore(bytes[1..]);
    }
  }

  lemma {:induction false} UnderscoreIsNotHex(s: string)
    requires '_' in s
    ensures Unhex(s) == None
  {
    if |s| > 1 {
      if '_' in s[2..] {
        UnderscoreIsNotHex(s[2..]);
      }
    }
  }

  // ----- postings filed under a word and a document

  function WordPrefix(word: string): string {
    "ri:" + word + "_"
  }

  function WordKey(word: string, id: DocId): string {
    WordPrefix(word) + Hex(id)
  }

  /** The stored word continues the queried one with an underscore. */
  predicate Shadows(stored: string, word: string) {
    word + "_" <= stored
  }

  /** Position by position: the prefix, the word, the underscore, then digits without underscore. */
  lemma KeyRunes(stored: string, id: DocId)
    ensures var k, m := WordKey(stored, id), |stored|;
            && |k| >= 4 + m && k[..3] == "ri:" && k[3..3 + m] == stored && k[3 + m] == '_'
            && forall i :: 4 + m <= i < |k| ==> k[i] != '_'
  {
    hide Hex;
    HexHasNoUnderscore(id);
    var k, m := WordKey(stored, id), |stored|;
    assert forall i :: 4 + m <= i < |k| ==> k[i] == Hex(id)[i - 4 - m];
  }

  lemma ShadowIsMet(word: string, stored: string, id: DocId)
    requires Shadows(stored, word)
    ensures WordPrefix(word) <= WordKey(stored, id)
  {
    hide Hex;
    assert stored == (word + "_") + stored[|word| + 1..];
    assert WordKey(stored, id) == WordPrefix(word) + (stored[|word| + 1..] + "_" + Hex(id));
  }

  lemma MetIsShadow(word: string, stored: string, id: DocId)
    requires WordPrefix(word) <= WordKey(stored, id)
    ensures stored == word || Shadows(stored, word)
  {
    var k, n, m := WordKey(stored, id), |word|, |stored|;
    KeyRunes(stored, id);
    hide WordKey;
    assert k[..4 + n] == WordPrefix(word);
    assert k[3 + n] == WordPrefix(word)[3 + n] == '_';
    assert k[3..3 + n] == WordPrefix(word)[3..3 + n] == word;
    assert m >= n;
    if m > n {
      assert k[3..3 + m] == stored;
      assert stored[..n] == k[3..3 + n] && stored[n] == k[3 + n];
      assert stored[..n + 1] == word + "_";
    }
  }

  /** The scan for a word meets the postings of that word and of every word that shadows it. */
  lemma ScanMeets(word: string, stored: string, id: DocId)
    ensures "ri:" <= WordKey(stored, id)
    ensures WordPrefix(word) <= WordKey(stored, id) <==> stored == word || Shadows(stored, word)
  {
    KeyRunes(stored, id);
    if stored == word {
      hide Hex;
      assert WordPrefix(word) <= WordKey(stored, id);
    } else if Shadows(stored, word) {
      ShadowIsMet(word, stored, id);
    } else if WordPrefix(word) <= WordKey(stored, id) {
      MetIsShadow(word, stored, id);
    }
  }

  /** What is left of a met key decodes to the document exactly when the word is the queried one. */
  lemma RemainderDecodes(word: string, stored: string, id: DocId)
    requires WordPrefix(word) <= WordKey(stored, id)
    ensures Unhex(WordKey(stored, id)[|WordPrefix(word)|..]) == if stored == word then Some(id) else None
  {
    ScanMeets(word, stored, id);
    var k, n, m := WordKey(stored, id), |word|, |stored|;
    if stored == word {
      assert k[4 + n..] == Hex(id);
      HexReadsBack(id);
    } else {
      assert k[4 + n..][m - n - 1] == k[3 + m] == '_';
      UnderscoreIsNotHex(k[4 + n..]);
    }
  }

  /** A key names one posting. */
  lemma WordKeyReadsBack(w: string, d: DocId, w': string, d': DocId)
    requires WordKey(w, d) == WordKey(w', d')
    ensures w == w' && d == d'
  {
    var k := WordKey(w, d);
    assert |k| == 68 + |w| == 68 + |w'|;
    assert k[3..3 + |w|] == w && WordKey(w', d')[3..3 + |w|] == w';
    assert k[4 + |w|..] == Hex(d) && WordKey(w', d')[4 + |w|..] == Hex(d');
    HexReadsBack(d);
    HexReadsBack(d');
  }
}
