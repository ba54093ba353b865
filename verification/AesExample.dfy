/** The worked examples of FIPS 197: appendices A (key expansion) and B (one block, round by round). */
module AesExample {
  import opened Field
  import opened Rijndael

  // The round keys of appendix A.1.

  function Key0(): State {
    State(Column(0x2b, 0x7e, 0x15, 0x16), Column(0x28, 0xae, 0xd2, 0xa6),
          Column(0xab, 0xf7, 0x15, 0x88), Column(0x09, 0xcf, 0x4f, 0x3c))
  }

  function Key1(): State {
    State(Column(0xa0, 0xfa, 0xfe, 0x17), Column(0x88, 0x54, 0x2c, 0xb1),
          Column(0x23, 0xa3, 0x39, 0x39), Column(0x2a, 0x6c, 0x76, 0x05))
  }

  function Key2(): State {
    State(Column(0xf2, 0xc2, 0x95, 0xf2), Column(0x7a, 0x96, 0xb9, 0x43),
          Column(0x59, 0x35, 0x80, 0x7a), Column(0x73, 0x59, 0xf6, 0x7f))
  }

  function Key3(): State {
    State(Column(0x3d, 0x80, 0x47, 0x7d), Column(0x47, 0x16, 0xfe, 0x3e),
          Column(0x1e, 0x23, 0x7e, 0x44), Column(0x6d, 0x7a, 0x88, 0x3b))
  }

  function Key4(): State {
    State(Column(0xef, 0x44, 0xa5, 0x41), Column(0xa8, 0x52, 0x5b, 0x7f),
          Column(0xb6, 0x71, 0x25, 0x3b), Column(0xdb, 0x0b, 0xad, 0x00))
  }

  function Key5(): State {
    State(Column(0xd4, 0xd1, 0xc6, 0xf8), Column(0x7c, 0x83, 0x9d, 0x87),
          Column(0xca, 0xf2, 0xb8, 0xbc), Column(0x11, 0xf9, 0x15, 0xbc))
  }

  function Key6(): State {
    State(Column(0x6d, 0x88, 0xa3, 0x7a), Column(0x11, 0x0b, 0x3e, 0xfd),
          Column(0xdb, 0xf9, 0x86, 0x41), Column(0xca, 0x00, 0x93, 0xfd))
  }

  function Key7(): State {
    State(Column(0x4e, 0x54, 0xf7, 0x0e), Column(0x5f, 0x5f, 0xc9, 0xf3),
          Column(0x84, 0xa6, 0x4f, 0xb2), Column(0x4e, 0xa6, 0xdc, 0x4f))
  }

  function Key8(): State {
    State(Column(0xea, 0xd2, 0x73, 0x21), Column(0xb5, 0x8d, 0xba, 0xd2),
          Column(0x31, 0x2b, 0xf5, 0x60), Column(0x7f, 0x8d, 0x29, 0x2f))
  }

  function Key9(): State {
    State(Column(0xac, 0x77, 0x66, 0xf3), Column(0x19, 0xfa, 0xdc, 0x21),
          Column(0x28, 0xd1, 0x29, 0x41), Column(0x57, 0x5c, 0x00, 0x6e))
  }

  function Key10(): State {
    State(Column(0xd0, 0x14, 0xf9, 0xa8), Column(0xc9, 0xee, 0x25, 0x89),
          Column(0xe1, 0x3f, 0x0c, 0xc8), Column(0xb6, 0x63, 0x0c, 0xa6))
  }

  // The states at the start of rounds 1 to 10 in appendix B.

  function Start0(): State {
    State(Column(0x19, 0x3d, 0xe3, 0xbe), Column(0xa0, 0xf4, 0xe2, 0x2b),
          Column(0x9a, 0xc6, 0x8d, 0x2a), Column(0xe9, 0xf8, 0x48, 0x08))
  }

  function Start1(): State {
    State(Column(0xa4, 0x9c, 0x7f, 0xf2), Column(0x68, 0x9f, 0x35, 0x2b),
          Column(0x6b, 0x5b, 0xea, 0x43), Column(0x02, 0x6a, 0x50, 0x49))
  }

  function Start2(): State {
    State(Column(0xaa, 0x8f, 0x5f, 0x03), Column(0x61, 0xdd, 0xe3, 0xef),
          Column(0x82, 0xd2, 0x4a, 0xd2), Column(0x68, 0x32, 0x46, 0x9a))
  }

  function Start3(): State {
    State(Column(0x48, 0x6c, 0x4e, 0xee), Column(0x67, 0x1d, 0x9d, 0x0d),
          Column(0x4d, 0xe3, 0xb1, 0x38), Column(0xd6, 0x5f, 0x58, 0xe7))
  }

  function Start4(): State {
    State(Column(0xe0, 0x92, 0x7f, 0xe8), Column(0xc8, 0x63, 0x63, 0xc0),
          Column(0xd9, 0xb1, 0x35, 0x50), Column(0x85, 0xb8, 0xbe, 0x01))
  }

  function Start5(): State {
    State(Column(0xf1, 0x00, 0x6f, 0x55), Column(0xc1, 0x92, 0x4c, 0xef),
          Column(0x7c, 0xc8, 0x8b, 0x32), Column(0x5d, 0xb5, 0xd5, 0x0c))
  }

  function Start6(): State {
    State(Column(0x26, 0x0e, 0x2e, 0x17), Column(0x3d, 0x41, 0xb7, 0x7d),
          Column(0xe8, 0x64, 0x72, 0xa9), Column(0xfd, 0xd2, 0x8b, 0x25))
  }

  function Start7(): State {
    State(Column(0x5a, 0x41, 0x42, 0xb1), Column(0x19, 0x49, 0xdc, 0x1f),
          Column(0xa3, 0xe0, 0x19, 0x65), Column(0x7a, 0x8c, 0x04, 0x0c))
  }

  function Start8(): State {
    State(Column(0xea, 0x83, 0x5c, 0xf0), Column(0x04, 0x45, 0x33, 0x2d),
          Column(0x65, 0x5d, 0x98, 0xad), Column(0x85, 0x96, 0xb0, 0xc5))
  }

  function Start9(): State {
    State(Column(0xeb, 0x40, 0xf2, 0x1e), Column(0x59, 0x2e, 0x38, 0x84),
          Column(0x8b, 0xa1, 0x13, 0xe7), Column(0x1b, 0xc3, 0x42, 0xd2))
  }

  function CipherKey(): seq<byte> { Unload(Key0()) }

  function Plain(): seq<byte> { [0x32, 0x43, 0xf6, 0xa8, 0x88, 0x5a, 0x30, 0x8d, 0x31, 0x31, 0x98, 0xa2, 0xe0, 0x37, 0x07, 0x34] }

  function Encrypted(): seq<byte> { [0x39, 0x25, 0x84, 0x1d, 0x02, 0xdc, 0x09, 0xfb, 0xdc, 0x11, 0x85, 0x97, 0x19, 0x6a, 0x0b, 0x32] }

  // ----- the key expansion -----

  lemma WordStep(key: seq<byte>, nk: nat, i: nat)
    requires 0 < nk <= i && |key| >= 4 * nk
    ensures i / nk >= 1
    ensures ScheduleWord(key, nk, i) == AddColumn(ScheduleWord(key, nk, i - nk), ScheduleStep(ScheduleWord(key, nk, i - 1), nk, i))
  {
  }

  /** One round key of a four-word key from the one before. */
  function NextKey(k: State, n: nat): State
    requires n > 0
  {
    var w0 := AddColumn(k.c0, ScheduleStep(k.c3, 4, 4 * n));
    var w1 := AddColumn(k.c1, w0);
    var w2 := AddColumn(k.c2, w1);
    State(w0, w1, w2, AddColumn(k.c3, w2))
  }

  lemma NextKeyIs(key: seq<byte>, n: nat)
    requires n > 0 && |key| >= 16
    ensures RoundKey(key, 4, n) == NextKey(RoundKey(key, 4, n - 1), n)
  {
    hide ScheduleWord, AddColumn, SubWord, RotWord, Power;
    WordStep(key, 4, 4 * n);
    WordStep(key, 4, 4 * n + 1);
    WordStep(key, 4, 4 * n + 2);
    WordStep(key, 4, 4 * n + 3);
  }

  lemma NextIsKey1()
    ensures NextKey(Key0(), 1) == Key1()
  {
  }

  lemma NextIsKey2()
    ensures NextKey(Key1(), 2) == Key2()
  {
  }

  lemma NextIsKey3()
    ensures NextKey(Key2(), 3) == Key3()
  {
  }

  lemma NextIsKey4()
    ensures NextKey(Key3(), 4) == Key4()
  {
  }

  lemma NextIsKey5()
    ensures NextKey(Key4(), 5) == Key5()
  {
  }

  lemma NextIsKey6()
    ensures NextKey(Key5(), 6) == Key6()
  {
  }

  lemma NextIsKey7()
    ensures NextKey(Key6(), 7) == Key7()
  {
    assert SubWord(RotWord(Key6().c3)) == Column(0x63, 0xdc, 0x54, 0x74);
    hide SubWord;
    assert Power(6) == 0x40;
  }

  lemma NextIsKey8()
    ensures NextKey(Key7(), 8) == Key8()
  {
  }

  lemma NextIsKey9()
    ensures NextKey(Key8(), 9) == Key9()
  {
  }

  lemma NextIsKey10()
    ensures NextKey(Key9(), 10) == Key10()
  {
  }

  lemma KeyLength()
    ensures |CipherKey()| == 16
  {
  }

  lemma KeyZero()
    requires |CipherKey()| == 16
    ensures RoundKey(CipherKey(), 4, 0) == Key0()
  {
    LoadUnload(Key0());
    assert RoundKey(CipherKey(), 4, 0) == Load(CipherKey());
    hide Key0, Load, Unload;
  }

  lemma KeysAreExample(key: seq<byte>)
    requires |key| == 16
    requires RoundKey(key, 4, 0) == Key0()
    requires RoundKey(key, 4, 1) == Key1()
    requires RoundKey(key, 4, 2) == Key2()
    requires RoundKey(key, 4, 3) == Key3()
    requires RoundKey(key, 4, 4) == Key4()
    requires RoundKey(key, 4, 5) == Key5()
    requires RoundKey(key, 4, 6) == Key6()
    requires RoundKey(key, 4, 7) == Key7()
    requires RoundKey(key, 4, 8) == Key8()
    requires RoundKey(key, 4, 9) == Key9()
    requires RoundKey(key, 4, 10) == Key10()
    ensures Example(RoundKeys(key, 4, 10))
  {
    hide RoundKey, Key0, Key1, Key2, Key3, Key4, Key5, Key6, Key7, Key8, Key9, Key10;
  }

  predicate Example(keys: seq<State>) {
    && |keys| == 11
    && keys[0] == Key0() && keys[1] == Key1() && keys[2] == Key2() && keys[3] == Key3() && keys[4] == Key4()
    && keys[5] == Key5() && keys[6] == Key6() && keys[7] == Key7() && keys[8] == Key8() && keys[9] == Key9() && keys[10] == Key10()
  }

  /** The key expansion of appendix A.1. */
  lemma ExampleKeys()
    ensures Example(RoundKeys(CipherKey(), 4, 10))
  {
    hide *;
    var key := CipherKey();
    assert |key| == 16 by { KeyLength(); }
    KeyZero();
    NextKeyIs(key, 1);
    NextIsKey1();
    NextKeyIs(key, 2);
    NextIsKey2();
    NextKeyIs(key, 3);
    NextIsKey3();
    NextKeyIs(key, 4);
    NextIsKey4();
    NextKeyIs(key, 5);
    NextIsKey5();
    NextKeyIs(key, 6);
    NextIsKey6();
    NextKeyIs(key, 7);
    NextIsKey7();
    NextKeyIs(key, 8);
    NextIsKey8();
    NextKeyIs(key, 9);
    NextIsKey9();
    NextKeyIs(key, 10);
    NextIsKey10();
    KeysAreExample(key);
  }

  function Key192(): seq<byte> {
    [0x8e, 0x73, 0xb0, 0xf7, 0xda, 0x0e, 0x64, 0x52, 0xc8, 0x10, 0xf3, 0x2b, 0x80, 0x90, 0x79, 0xe5]
    + [0x62, 0xf8, 0xea, 0xd2, 0x52, 0x2c, 0x6b, 0x7b]
  }

  lemma Given192()
    requires |Key192()| == 24
    ensures WordAt(Key192(), 0) == Column(0x8e, 0x73, 0xb0, 0xf7)
    ensures WordAt(Key192(), 1) == Column(0xda, 0x0e, 0x64, 0x52)
    ensures WordAt(Key192(), 2) == Column(0xc8, 0x10, 0xf3, 0x2b)
    ensures WordAt(Key192(), 3) == Column(0x80, 0x90, 0x79, 0xe5)
    ensures WordAt(Key192(), 4) == Column(0x62, 0xf8, 0xea, 0xd2)
    ensures WordAt(Key192(), 5) == Column(0x52, 0x2c, 0x6b, 0x7b)
  {
  }

  lemma Sums192()
    ensures AddColumn(Column(0x8e, 0x73, 0xb0, 0xf7), ScheduleStep(Column(0x52, 0x2c, 0x6b, 0x7b), 6, 6)) == Column(0xfe, 0x0c, 0x91, 0xf7)
    ensures AddColumn(Column(0xda, 0x0e, 0x64, 0x52), ScheduleStep(Column(0xfe, 0x0c, 0x91, 0xf7), 6, 7)) == Column(0x24, 0x02, 0xf5, 0xa5)
    ensures AddColumn(Column(0xc8, 0x10, 0xf3, 0x2b), ScheduleStep(Column(0x24, 0x02, 0xf5, 0xa5), 6, 8)) == Column(0xec, 0x12, 0x06, 0x8e)
    ensures AddColumn(Column(0x80, 0x90, 0x79, 0xe5), ScheduleStep(Column(0xec, 0x12, 0x06, 0x8e), 6, 9)) == Column(0x6c, 0x82, 0x7f, 0x6b)
    ensures AddColumn(Column(0x62, 0xf8, 0xea, 0xd2), ScheduleStep(Column(0x6c, 0x82, 0x7f, 0x6b), 6, 10)) == Column(0x0e, 0x7a, 0x95, 0xb9)
    ensures AddColumn(Column(0x52, 0x2c, 0x6b, 0x7b), ScheduleStep(Column(0x0e, 0x7a, 0x95, 0xb9), 6, 11)) == Column(0x5c, 0x56, 0xfe, 0xc2)
    ensures AddColumn(Column(0xfe, 0x0c, 0x91, 0xf7), ScheduleStep(Column(0x5c, 0x56, 0xfe, 0xc2), 6, 12)) == Column(0x4d, 0xb7, 0xb4, 0xbd)
  {
  }

  /** The first words that appendix A.2 computes. */
  lemma Words192()
    ensures |Key192()| == 24
    ensures ScheduleWord(Key192(), 6, 6) == Column(0xfe, 0x0c, 0x91, 0xf7)
    ensures ScheduleWord(Key192(), 6, 7) == Column(0x24, 0x02, 0xf5, 0xa5)
    ensures ScheduleWord(Key192(), 6, 8) == Column(0xec, 0x12, 0x06, 0x8e)
    ensures ScheduleWord(Key192(), 6, 9) == Column(0x6c, 0x82, 0x7f, 0x6b)
    ensures ScheduleWord(Key192(), 6, 10) == Column(0x0e, 0x7a, 0x95, 0xb9)
    ensures ScheduleWord(Key192(), 6, 11) == Column(0x5c, 0x56, 0xfe, 0xc2)
    ensures ScheduleWord(Key192(), 6, 12) == Column(0x4d, 0xb7, 0xb4, 0xbd)
  {
    var key := Key192();
    assert |key| == 24;
    hide *;
    Given192();
    Sums192();
    FirstWords(key, 6);
    WordStep(key, 6, 6);
    WordStep(key, 6, 7);
    WordStep(key, 6, 8);
    WordStep(key, 6, 9);
    WordStep(key, 6, 10);
    WordStep(key, 6, 11);
    WordStep(key, 6, 12);
  }

  function Key256(): seq<byte> {
    [0x60, 0x3d, 0xeb, 0x10, 0x15, 0xca, 0x71, 0xbe, 0x2b, 0x73, 0xae, 0xf0, 0x85, 0x7d, 0x77, 0x81]
    + [0x1f, 0x35, 0x2c, 0x07, 0x3b, 0x61, 0x08, 0xd7, 0x2d, 0x98, 0x10, 0xa3, 0x09, 0x14, 0xdf, 0xf4]
  }

  lemma Given256()
    requires |Key256()| == 32
    ensures WordAt(Key256(), 0) == Column(0x60, 0x3d, 0xeb, 0x10)
    ensures WordAt(Key256(), 1) == Column(0x15, 0xca, 0x71, 0xbe)
    ensures WordAt(Key256(), 2) == Column(0x2b, 0x73, 0xae, 0xf0)
    ensures WordAt(Key256(), 3) == Column(0x85, 0x7d, 0x77, 0x81)
    ensures WordAt(Key256(), 4) == Column(0x1f, 0x35, 0x2c, 0x07)
    ensures WordAt(Key256(), 5) == Column(0x3b, 0x61, 0x08, 0xd7)
    ensures WordAt(Key256(), 6) == Column(0x2d, 0x98, 0x10, 0xa3)
    ensures WordAt(Key256(), 7) == Column(0x09, 0x14, 0xdf, 0xf4)
  {
  }

  lemma Sums256()
    ensures AddColumn(Column(0x60, 0x3d, 0xeb, 0x10), ScheduleStep(Column(0x09, 0x14, 0xdf, 0xf4), 8, 8)) == Column(0x9b, 0xa3, 0x54, 0x11)
    ensures AddColumn(Column(0x15, 0xca, 0x71, 0xbe), ScheduleStep(Column(0x9b, 0xa3, 0x54, 0x11), 8, 9)) == Column(0x8e, 0x69, 0x25, 0xaf)
    ensures AddColumn(Column(0x2b, 0x73, 0xae, 0xf0), ScheduleStep(Column(0x8e, 0x69, 0x25, 0xaf), 8, 10)) == Column(0xa5, 0x1a, 0x8b, 0x5f)
    ensures AddColumn(Column(0x85, 0x7d, 0x77, 0x81), ScheduleStep(Column(0xa5, 0x1a, 0x8b, 0x5f), 8, 11)) == Column(0x20, 0x67, 0xfc, 0xde)
    ensures AddColumn(Column(0x1f, 0x35, 0x2c, 0x07), ScheduleStep(Column(0x20, 0x67, 0xfc, 0xde), 8, 12)) == Column(0xa8, 0xb0, 0x9c, 0x1a)
  {
  }

  /** The first words that appendix A.3 computes. */
  lemma Words256()
    ensures |Key256()| == 32
    ensures ScheduleWord(Key256(), 8, 8) == Column(0x9b, 0xa3, 0x54, 0x11)
    ensures ScheduleWord(Key256(), 8, 9) == Column(0x8e, 0x69, 0x25, 0xaf)
    ensures ScheduleWord(Key256(), 8, 10) == Column(0xa5, 0x1a, 0x8b, 0x5f)
    ensures ScheduleWord(Key256(), 8, 11) == Column(0x20, 0x67, 0xfc, 0xde)
    ensures ScheduleWord(Key256(), 8, 12) == Column(0xa8, 0xb0, 0x9c, 0x1a)
  {
    var key := Key256();
    assert |key| == 32;
    hide *;
    Given256();
    Sums256();
    FirstWords(key, 8);
    WordStep(key, 8, 8);
    WordStep(key, 8, 9);
    WordStep(key, 8, 10);
    WordStep(key, 8, 11);
    WordStep(key, 8, 12);
  }

  lemma FirstWords(key: seq<byte>, nk: nat)
    requires nk > 0 && |key| >= 4 * nk
    ensures forall i :: 0 <= i < nk ==> ScheduleWord(key, nk, i) == WordAt(key, i)
  {
  }

  // ----- the cipher -----

  /** A full round. */
  function Turn(s: State, k: State): State { AddKey(MixColumns(Scramble(s)), k) }

  lemma Round1()
    ensures Turn(Start0(), Key1()) == Start1()
  {
  }

  lemma Round2()
    ensures Turn(Start1(), Key2()) == Start2()
  {
  }

  lemma Round3()
    ensures Turn(Start2(), Key3()) == Start3()
  {
  }

  lemma Round4()
    ensures Turn(Start3(), Key4()) == Start4()
  {
  }

  lemma Round5()
    ensures Turn(Start4(), Key5()) == Start5()
  {
  }

  lemma Round6()
    ensures Turn(Start5(), Key6()) == Start6()
  {
  }

  lemma Round7()
    ensures Turn(Start6(), Key7()) == Start7()
  {
  }

  lemma Round8()
    ensures Turn(Start7(), Key8()) == Start8()
  {
  }

  lemma Round9()
    ensures Turn(Start8(), Key9()) == Start9()
  {
  }

  lemma FirstStep()
    ensures AddKey(Load(Plain()), Key0()) == Start0()
  {
  }

  lemma LastStep()
    ensures Unload(AddKey(Scramble(Start9()), Key10())) == Encrypted()
  {
  }

  lemma RoundIsTurn(s: State, keys: seq<State>, n: nat)
    requires 0 < n < |keys|
    ensures Rounds(s, keys, n) == Turn(Rounds(s, keys, n - 1), keys[n])
  {
    hide Scramble, MixColumns, AddKey;
  }

  lemma ExampleRounds(keys: seq<State>)
    requires Example(keys)
    ensures Rounds(Start0(), keys, 9) == Start9()
  {
    hide Turn, Rounds, Start0, Start1, Start2, Start3, Start4, Start5, Start6, Start7, Start8, Start9,
         Key0, Key1, Key2, Key3, Key4, Key5, Key6, Key7, Key8, Key9, Key10;
    RoundsStep(Start0(), keys, 0);
    RoundIsTurn(Start0(), keys, 1);
    Round1();
    RoundIsTurn(Start0(), keys, 2);
    Round2();
    RoundIsTurn(Start0(), keys, 3);
    Round3();
    RoundIsTurn(Start0(), keys, 4);
    Round4();
    RoundIsTurn(Start0(), keys, 5);
    Round5();
    RoundIsTurn(Start0(), keys, 6);
    Round6();
    RoundIsTurn(Start0(), keys, 7);
    Round7();
    RoundIsTurn(Start0(), keys, 8);
    Round8();
    RoundIsTurn(Start0(), keys, 9);
    Round9();
  }

  /** The block of appendix B under its key, and back. */
  lemma StandardExample()
    ensures EncryptBlock(CipherKey(), 4, Plain()) == Encrypted()
    ensures DecryptBlock(CipherKey(), 4, Encrypted()) == Plain()
  {
    var key, plain := CipherKey(), Plain();
    assert |key| == |plain| == 16;
    ExampleKeys();
    FirstStep();
    LastStep();
    hide *;
    var keys := RoundKeys(key, 4, 10);
    ExampleRounds(keys);
    EncryptIs(key, plain);
    DecryptUndoesEncrypt(key, 4, plain);
  }

  lemma EncryptIs(key: seq<byte>, plain: seq<byte>)
    requires |key| == |plain| == 16
    ensures var keys := RoundKeys(key, 4, 10);
            EncryptBlock(key, 4, plain) == Unload(AddKey(Scramble(Rounds(AddKey(Load(plain), keys[0]), keys, 9)), keys[10]))
  {
    hide Load, Unload, AddKey, Scramble, Rounds, RoundKeys;
  }
}
