// The repeating-key XOR cipher of SecurityManager.cpp, which both stores use
// for their encrypted files, and its key generator.

module Cipher {
  import opened ByteCodec

  /** Byte i of the output is byte i of the input XOR key[i mod |key|]; an empty key changes nothing. */
  function XorStream(data: Bytes, key: Bytes): (r: Bytes)
    ensures |r| == |data|
  {
    if |key| == 0 then data
    else seq(|data|, i requires 0 <= i < |data| => Xor(data[i], key[i % |key|]))
  }

  /** encrypt: fills a buffer of the input's size one byte at a time. */
  method Encrypt(data: Bytes, key: Bytes) returns (r: Bytes)
    ensures |r| == |data|
    ensures |key| == 0 ==> r == data
    ensures |key| > 0 ==> forall i | 0 <= i < |data| :: r[i] == Xor(data[i], key[i % |key|])
    ensures r == XorStream(data, key)
  {
    if |key| == 0 {
      return data;
    }
    var result := new byte[|data|];
    var i := 0;
    while i < |data|
      invariant 0 <= i <= |data|
      invariant forall j | 0 <= j < i :: result[j] == Xor(data[j], key[j % |key|])
    {
      result[i] := Xor(data[i], key[i % |key|]);
      i := i + 1;
    }
    r := result[..];
  }

  /** decrypt is encrypt: XOR with the same key stream. */
  method Decrypt(data: Bytes, key: Bytes) returns (r: Bytes)
    ensures r == XorStream(data, key)
  {
    r := Encrypt(data, key);
  }

  /** Decrypting with the key used to encrypt gives back the plaintext, for every key. */
  lemma RoundTrip(data: Bytes, key: Bytes)
    ensures XorStream(XorStream(data, key), key) == data
  {
    if |key| > 0 {
      var e := XorStream(data, key);
      var d := XorStream(e, key);
      forall i | 0 <= i < |data| ensures d[i] == data[i] {
        XorTwice(data[i], key[i % |key|]);
      }
    }
  }

  /**
   * Decrypting with a key whose key stream differs from the encrypting
   * key's at position j gets byte j wrong.
   */
  lemma WrongKeyChangesByte(data: Bytes, key: Bytes, key2: Bytes, j: nat)
    requires |key| > 0 && |key2| > 0 && j < |data|
    requires key2[j % |key2|] != key[j % |key|]
    ensures XorStream(XorStream(data, key), key2)[j] != data[j]
  {
    var e := Xor(data[j], key[j % |key|]);
    XorTwice(data[j], key[j % |key|]);
    XorCancel(e, key[j % |key|], key2[j % |key2|]);
  }

  // std::string values hold bytes: a Dafny string models one when every
  // character is below 256.

  predicate IsByteString(s: string) { forall i | 0 <= i < |s| :: s[i] as int < 256 }

  function ToBytes(s: string): (r: Bytes)
    requires IsByteString(s)
    ensures |r| == |s| && forall i | 0 <= i < |s| :: r[i] as int == s[i] as int
  {
    seq(|s|, i requires 0 <= i < |s| => (s[i] as int) as byte)
  }

  function FromBytes(b: Bytes): (s: string)
    ensures IsByteString(s) && |s| == |b| && forall i | 0 <= i < |b| :: s[i] as int == b[i] as int
  {
    seq(|b|, i requires 0 <= i < |b| => (b[i] as int) as char)
  }

  lemma StringBytesRoundTrip(s: string)
    requires IsByteString(s)
    ensures FromBytes(ToBytes(s)) == s
  {
    var t := FromBytes(ToBytes(s));
    assert forall i | 0 <= i < |s| :: t[i] as int == s[i] as int;
  }

  /** encrypt_string: the string's bytes through the cipher, back into a string. */
  function EncryptString(input: string, key: string): (r: string)
    requires IsByteString(input) && IsByteString(key)
    ensures IsByteString(r) && |r| == |input|
  {
    FromBytes(XorStream(ToBytes(input), ToBytes(key)))
  }

  function DecryptString(input: string, key: string): (r: string)
    requires IsByteString(input) && IsByteString(key)
    ensures IsByteString(r) && |r| == |input|
  {
    FromBytes(XorStream(ToBytes(input), ToBytes(key)))
  }

  lemma {:induction false} StringRoundTrip(input: string, key: string)
    requires IsByteString(input) && IsByteString(key)
    ensures DecryptString(EncryptString(input, key), key) == input
  {
    var b := ToBytes(input);
    var k := ToBytes(key);
    var e := XorStream(b, k);
    assert ToBytes(FromBytes(e)) == e;
    RoundTrip(b, k);
    StringBytesRoundTrip(input);
  }

  /** Character i of "0-9A-Za-z": the ten digits, then upper case, then lower case. */
  function CharsetAt(i: nat): char
    requires i < 62
  {
    if i < 10 then ('0' as int + i) as char
    else if i < 36 then ('A' as int + (i - 10)) as char
    else ('a' as int + (i - 36)) as char
  }

  /** The 62 characters generate_key draws from. */
  const CHARSET: string := seq(62, i requires 0 <= i < 62 => CharsetAt(i))

  predicate IsAlphanumeric(c: char)
  {
    ('0' <= c <= '9') || ('A' <= c <= 'Z') || ('a' <= c <= 'z')
  }

  lemma CharsetIsAlphanumeric()
    ensures |CHARSET| == 62 && forall i | 0 <= i < |CHARSET| :: IsAlphanumeric(CHARSET[i])
  {
  }

  /**
   * generate_key: `draws` stands for the values of the uniform distribution
   * on [0, sizeof(charset) - 2], i.e. on the indices of CHARSET (sizeof
   * counts the terminating NUL).
   */
  method GenerateKey(length: nat, draws: seq<nat>) returns (key: string)
    requires |draws| >= length
    requires forall i | 0 <= i < |draws| :: draws[i] < |CHARSET|
    ensures |key| == length
    ensures forall i | 0 <= i < length :: key[i] == CHARSET[draws[i]] && IsAlphanumeric(key[i])
  {
    CharsetIsAlphanumeric();
    key := [];
    var i := 0;
    while i < length
      invariant 0 <= i <= length && |key| == i
      invariant forall j | 0 <= j < i :: key[j] == CHARSET[draws[j]]
    {
      key := key + [CHARSET[draws[i]]];
      i := i + 1;
    }
  }
}
