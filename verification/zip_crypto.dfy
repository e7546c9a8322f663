/** The traditional PKWARE ZIP cipher (section 6.1 of the PKWARE .ZIP File
    Format Specification) as src/formats/zip_crypto.rs implements it: three
    32-bit key registers, a keystream byte drawn from 16-bit arithmetic on the
    third register, decryption that feeds the recovered plaintext back into
    the key schedule, and the password check on the 12-byte encryption
    header. Passwords are taken as their bytes. */
module ZipCrypto {
  import opened Wrappers
  import Crc32
  import StreamCipher

  /** Length of the encryption header that precedes the file data. */
  const HeaderSize: nat := 12

  const Seed0: bv32 := 0x12345678
  const Seed1: bv32 := 0x23456789
  const Seed2: bv32 := 0x34567890

  /** The multiplier of the linear congruential step on the second register. */
  const Multiplier: bv32 := 134775813

  /** The general purpose flag bit that marks an encrypted entry. */
  const EncryptedFlag: bv16 := 0x0001

  /** The general purpose flag bit that marks a trailing data descriptor. */
  const DataDescriptorFlag: bv16 := 0x0008

  /** The compression method number that marks AES encryption. */
  const AesMethod: bv16 := 99

  datatype Keys = Keys(key0: bv32, key1: bv32, key2: bv32)

  /** The state before any password byte is fed in. */
  const Initial: Keys := Keys(Seed0, Seed1, Seed2)

  /** One step of the key schedule. Each register is computed from the value
      its predecessor has just been given: the first register takes one byte
      of bitwise CRC-32 division, the second a wrapping 32-bit linear
      congruential step on the new first register's low byte, and the third
      a CRC step on the new second register's top byte. */
  function Update(k: Keys, b: bv8): Keys
  {
    var key0 := Crc32.Update(k.key0, b);
    var key1 := (k.key1 + (key0 & 0xff)) * Multiplier + 1;
    Keys(key0, key1, Crc32.Update(k.key2, (key1 >> 24) as bv8))
  }

  /** The first register of a key step is the bitwise CRC-32 division of the
      old register mixed with the input byte. */
  lemma FirstRegisterIsBitwise(k: Keys, b: bv8)
    ensures Update(k, b).key0 == Crc32.ShiftByte(k.key0 ^ (b as bv32))
  {
    Crc32.UpdateIsBitwise(k.key0, b);
  }

  /** The keystream byte: bits 8..15 of t * (t ^ 1) modulo 2^16, where t is
      the low half of the third register with bit 1 forced on. */
  function StreamByte(k: Keys): bv8
  {
    var t := ((k.key2 | 2) & 0xffff) as bv16;
    ((t * (t ^ 1)) >> 8) as bv8
  }

  /** Exclusive-or, the mixing of keystream and data. */
  function Xor(a: bv8, b: bv8): bv8 { a ^ b }

  lemma XorInvolutive()
    ensures StreamCipher.Involutive(Xor)
  {
  }

  /** The state a password sets up: the seeds with the password bytes fed
      through the key schedule in order. */
  function KeysFor(password: seq<bv8>): Keys
  {
    StreamCipher.Feed(Update, Initial, password)
  }

  /** One decryption step as the source's `decrypt_byte`: the plaintext byte
      and the state advanced with it. */
  function DecryptByte(k: Keys, c: bv8): (r: (bv8, Keys))
    ensures r.0 == Xor(c, StreamByte(k))
    ensures r.1 == Update(k, r.0)
  {
    var p := c ^ StreamByte(k);
    (p, Update(k, p))
  }

  /** Decryption and encryption of byte strings under this cipher. */
  function Decrypt(k: Keys, cs: seq<bv8>): seq<bv8>
  {
    StreamCipher.Decrypt(Update, StreamByte, Xor, k, cs)
  }

  function Encrypt(k: Keys, ps: seq<bv8>): seq<bv8>
  {
    StreamCipher.Encrypt(Update, StreamByte, Xor, k, ps)
  }

  /** Re-mixing each recovered plaintext byte with the keystream from the same
      start state gives back the ciphertext, and the other way round. */
  lemma RoundTrip(k: Keys, s: seq<bv8>)
    ensures Encrypt(k, Decrypt(k, s)) == s
    ensures Decrypt(k, Encrypt(k, s)) == s
  {
    XorInvolutive();
    StreamCipher.EncryptDecrypt(Update, StreamByte, Xor, k, s);
    StreamCipher.DecryptEncrypt(Update, StreamByte, Xor, k, s);
  }

  /** The key states the password "password" walks the registers through,
      one lemma per byte: from the seeds, "p" gives the first state, "a" the
      second, and so on to "d". Every register of the last state differs
      from its seed. */
  lemma PasswordStep0()
    ensures Update(Initial, 0x70) == Keys(0x0ec9bc64, 0x21593ba2, 0xbc52d562)
  {
    assert Crc32.Update(0x12345678, 0x70) == 0x0ec9bc64;
    assert Crc32.Update(0x34567890, 0x21) == 0xbc52d562;
  }

  lemma PasswordStep1()
    ensures Update(Keys(0x0ec9bc64, 0x21593ba2, 0xbc52d562), 0x61) == Keys(0x70643d33, 0x303fff2a, 0x85d9620d)
  {
    assert Crc32.Update(0x0ec9bc64, 0x61) == 0x70643d33;
    assert Crc32.Update(0xbc52d562, 0x30) == 0x85d9620d;
  }

  lemma PasswordStep2()
    ensures Update(Keys(0x70643d33, 0x303fff2a, 0x85d9620d), 0x73) == Keys(0x76ac25ad, 0xa7e2db34, 0x36869394)
  {
    assert Crc32.Update(0x70643d33, 0x73) == 0x76ac25ad;
    assert Crc32.Update(0x85d9620d, 0xa7) == 0x36869394;
  }

  lemma PasswordStep3()
    ensures Update(Keys(0x76ac25ad, 0xa7e2db34, 0x36869394), 0x73) == Keys(0x611d53f6, 0x7243f4d3, 0x495fc1de)
  {
    assert Crc32.Update(0x76ac25ad, 0x73) == 0x611d53f6;
    assert Crc32.Update(0x36869394, 0x72) == 0x495fc1de;
  }

  lemma PasswordStep4()
    ensures Update(Keys(0x611d53f6, 0x7243f4d3, 0x495fc1de), 0x77) == Keys(0x9adeaee5, 0xb3c6ac99, 0x334a4224)
  {
    assert Crc32.Update(0x611d53f6, 0x77) == 0x9adeaee5;
    assert Crc32.Update(0x495fc1de, 0xb3) == 0x334a4224;
  }

  lemma PasswordStep5()
    ensures Update(Keys(0x9adeaee5, 0xb3c6ac99, 0x334a4224), 0x6f) == Keys(0x0df7b490, 0xa57285ce, 0x9a8cf9f4)
  {
    assert Crc32.Update(0x9adeaee5, 0x6f) == 0x0df7b490;
    assert Crc32.Update(0x334a4224, 0xa5) == 0x9a8cf9f4;
  }

  lemma PasswordStep6()
    ensures Update(Keys(0x0df7b490, 0xa57285ce, 0x9a8cf9f4), 0x72) == Keys(0x4e0974e0, 0xee1e5967, 0xfdf87583)
  {
    assert Crc32.Update(0x0df7b490, 0x72) == 0x4e0974e0;
    assert Crc32.Update(0x9a8cf9f4, 0xee) == 0xfdf87583;
  }

  lemma PasswordStep7()
    ensures Update(Keys(0x4e0974e0, 0xee1e5967, 0xfdf87583), 0x64) == Keys(0xea9b4e4d, 0xba789085, 0x5ff8707d)
  {
    assert Crc32.Update(0x4e0974e0, 0x64) == 0xea9b4e4d;
    assert Crc32.Update(0xfdf87583, 0xba) == 0x5ff8707d;
  }

  /** How an entry is encrypted, from its flags and compression method. */
  datatype EncryptionType = NoEncryption | Traditional | Aes128 | Aes192 | Aes256

  function DetectEncryptionType(flags: bv16, compression: bv16): (r: EncryptionType)
    ensures r == NoEncryption <==> flags & EncryptedFlag == 0
    ensures r == Aes256 <==> flags & EncryptedFlag != 0 && compression == AesMethod
    ensures r == Traditional <==> flags & EncryptedFlag != 0 && compression != AesMethod
    ensures r != Aes128 && r != Aes192
  {
    if flags & EncryptedFlag == 0 then NoEncryption
    else if compression == AesMethod then Aes256
    else Traditional
  }

  /** The byte the last header byte is compared with, as the source picks
      it: the LOW byte of the modification time when a data descriptor
      follows, otherwise the high byte of the CRC. */
  function ExpectedCheckByte(crc: bv32, lastModTime: bv16, flags: bv16): bv8
  {
    if flags & DataDescriptorFlag != 0 then (lastModTime & 0xff) as bv8
    else ((crc >> 24) & 0xff) as bv8
  }

  /** The byte the writers of streamed entries actually put last in the
      header (Info-ZIP's zip, and the readers that follow it): the HIGH byte
      of the modification time when a data descriptor follows, otherwise the
      high byte of the CRC. */
  function CorrectedCheckByte(crc: bv32, lastModTime: bv16, flags: bv16): bv8
  {
    if flags & DataDescriptorFlag != 0 then (lastModTime >> 8) as bv8
    else ((crc >> 24) & 0xff) as bv8
  }

  /** Whether the password decrypts a header of at least 12 bytes to one whose
      byte 11 is `expected`. */
  predicate Accepts(header: seq<bv8>, password: seq<bv8>, expected: bv8)
    requires |header| >= HeaderSize
  {
    Decrypt(KeysFor(password), header[..HeaderSize])[11] == expected
  }

  /** The password check on the encryption header, step by step as the
      source runs it: feed the password, decrypt twelve bytes, compare the
      last one with `ExpectedCheckByte`. */
  method VerifyTraditionalPassword(header: seq<bv8>, password: seq<bv8>, crc: bv32, lastModTime: bv16, flags: bv16)
    returns (r: Result<bool>)
    ensures r.Err? <==> |header| < HeaderSize
    ensures r.Err? ==> r.message == "Encrypted header too short"
    ensures r.Ok? ==> (r.value <==> Accepts(header, password, ExpectedCheckByte(crc, lastModTime, flags)))
  {
    if |header| < HeaderSize {
      return Err("Encrypted header too short");
    }
    var keys := FeedPassword(password);
    var decrypted := DecryptHeader(keys, header);
    var check := decrypted[11];
    return Ok(check == ExpectedCheckByte(crc, lastModTime, flags));
  }

  /** The same check comparing with `CorrectedCheckByte`. */
  method VerifyTraditionalPasswordCorrected(header: seq<bv8>, password: seq<bv8>, crc: bv32, lastModTime: bv16, flags: bv16)
    returns (r: Result<bool>)
    ensures r.Err? <==> |header| < HeaderSize
    ensures r.Err? ==> r.message == "Encrypted header too short"
    ensures r.Ok? ==> (r.value <==> Accepts(header, password, CorrectedCheckByte(crc, lastModTime, flags)))
  {
    if |header| < HeaderSize {
      return Err("Encrypted header too short");
    }
    var keys := FeedPassword(password);
    var decrypted := DecryptHeader(keys, header);
    return Ok(decrypted[11] == CorrectedCheckByte(crc, lastModTime, flags));
  }

  /** The first loop of the check: the password bytes fed into fresh keys. */
  method FeedPassword(password: seq<bv8>) returns (keys: Keys)
    ensures keys == KeysFor(password)
  {
    keys := Initial;
    var i := 0;
    while i < |password|
      invariant 0 <= i <= |password|
      invariant keys == StreamCipher.Feed(Update, Initial, password[..i])
    {
      StreamCipher.FeedSnoc(Update, Initial, password, i);
      keys := Update(keys, password[i]);
      i := i + 1;
    }
    assert password[..i] == password;
  }

  /** The second loop of the check: the twelve header bytes decrypted one
      after the other, each step advancing the keys. */
  method DecryptHeader(start: Keys, header: seq<bv8>) returns (decrypted: seq<bv8>)
    requires |header| >= HeaderSize
    ensures decrypted == Decrypt(start, header[..HeaderSize])
  {
    var keys := start;
    decrypted := [];
    var j := 0;
    while j < HeaderSize
      invariant 0 <= j <= HeaderSize
      invariant decrypted == Decrypt(start, header[..j])
      invariant keys == StreamCipher.Feed(Update, start, decrypted)
    {
      var (plain, next) := DecryptByte(keys, header[j]);
      DecryptHeaderStep(start, header, j, keys, plain, next);
      keys := next;
      decrypted := decrypted + [plain];
      j := j + 1;
    }
  }

  /** One turn of the header loop keeps its invariant. */
  lemma DecryptHeaderStep(start: Keys, header: seq<bv8>, j: nat, keys: Keys, plain: bv8, next: Keys)
    requires j < |header|
    requires keys == StreamCipher.Feed(Update, start, Decrypt(start, header[..j]))
    requires plain == Xor(header[j], StreamByte(keys)) && next == Update(keys, plain)
    ensures Decrypt(start, header[..j + 1]) == Decrypt(start, header[..j]) + [plain]
    ensures next == StreamCipher.Feed(Update, start, Decrypt(start, header[..j]) + [plain])
  {
    assert header[..j + 1] == header[..j] + [header[j]];
    StreamCipher.DecryptSnoc(Update, StreamByte, Xor, start, header[..j], header[j]);
    StreamCipher.FeedAppend(Update, start, Decrypt(start, header[..j]), [plain]);
  }

  /** For a header written by encrypting twelve bytes under the right
      password, the check passes exactly when the last of those bytes is the
      byte compared with; whatever follows the twelve bytes is not read. */
  lemma RightPasswordAcceptedIff(password: seq<bv8>, plain: seq<bv8>, rest: seq<bv8>, expected: bv8)
    requires |plain| == HeaderSize
    ensures Accepts(Encrypt(KeysFor(password), plain) + rest, password, expected) <==> plain[11] == expected
  {
    var header := Encrypt(KeysFor(password), plain) + rest;
    assert header[..HeaderSize] == Encrypt(KeysFor(password), plain);
    RoundTrip(KeysFor(password), plain);
  }

  /** As written, a streamed entry whose header carries the high time byte,
      as Info-ZIP's zip writes it, is refused under its own password whenever
      the two bytes of the time differ. */
  lemma StreamedHeaderRefused(password: seq<bv8>, plain: seq<bv8>, rest: seq<bv8>, crc: bv32, lastModTime: bv16, flags: bv16)
    requires |plain| == HeaderSize
    requires flags & DataDescriptorFlag != 0
    requires plain[11] == CorrectedCheckByte(crc, lastModTime, flags)
    requires (lastModTime >> 8) as bv8 != (lastModTime & 0xff) as bv8
    ensures !Accepts(Encrypt(KeysFor(password), plain) + rest, password, ExpectedCheckByte(crc, lastModTime, flags))
  {
    RightPasswordAcceptedIff(password, plain, rest, ExpectedCheckByte(crc, lastModTime, flags));
  }

  /** With the corrected byte, every header written that way, streamed or
      not, passes under its own password. */
  lemma WrittenHeaderAcceptedCorrected(password: seq<bv8>, plain: seq<bv8>, rest: seq<bv8>, crc: bv32, lastModTime: bv16, flags: bv16)
    requires |plain| == HeaderSize
    requires plain[11] == CorrectedCheckByte(crc, lastModTime, flags)
    ensures Accepts(Encrypt(KeysFor(password), plain) + rest, password, CorrectedCheckByte(crc, lastModTime, flags))
  {
    RightPasswordAcceptedIff(password, plain, rest, CorrectedCheckByte(crc, lastModTime, flags));
  }
}
