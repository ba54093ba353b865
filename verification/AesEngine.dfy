/** The cipher as the firmware runs it: five global arrays, changed in place step by step. */
module AesEngine {
  import opened Field
  import opened Rijndael

  /** The round constants that are ever looked up: `Rcon_x[1]` to `Rcon_x[10]`. */
  const RCON: seq<byte> := [0x8d, 0x01, 0x02, 0x04, 0x08, 0x10, 0x20, 0x40, 0x80, 0x1b, 0x36]

  lemma RoundConstants(n: nat)
    requires 1 <= n <= 10
    ensures RCON[n] == Power(n - 1)
  {
    assert Double(0x01) == 0x02 && Double(0x02) == 0x04 && Double(0x04) == 0x08 && Double(0x08) == 0x10 && Double(0x10) == 0x20;
    assert Double(0x20) == 0x40 && Double(0x40) == 0x80 && Double(0x80) == 0x1b && Double(0x1b) == 0x36;
    hide Double;
    assert Power(1) == 0x02;
    assert Power(3) == 0x08;
    assert Power(5) == 0x20;
    assert Power(7) == 0x80;
    assert Power(9) == 0x36;
  }

  class Engine {
    /** `g_in`, `g_out`, `g_state`, `g_RoundKey`, `g_Key`; then `g_Nr` and `g_Nk`. */
    const inBlock: array<byte>
    const outBlock: array<byte>
    const stateRows: array2<byte>
    const roundKey: array<byte>
    const keyBytes: array<byte>
    var numRounds: nat
    var keyWords: nat

    constructor ()
      ensures Valid() && fresh(inBlock) && fresh(outBlock) && fresh(stateRows) && fresh(roundKey) && fresh(keyBytes)
    {
      inBlock, outBlock := new byte[16], new byte[16];
      stateRows := new byte[4, 4];
      roundKey, keyBytes := new byte[240], new byte[32];
      numRounds, keyWords := 0, 0;
    }

    ghost predicate Valid() {
      && inBlock.Length == outBlock.Length == 16 && stateRows.Length0 == stateRows.Length1 == 4
      && roundKey.Length == 240 && keyBytes.Length == 32
      && inBlock != outBlock && inBlock != roundKey && inBlock != keyBytes && outBlock != roundKey && outBlock != keyBytes && roundKey != keyBytes
    }

    ghost function Col(i: nat): Column
      requires Valid() && i < 4
      reads stateRows
    {
      Column(stateRows[0, i], stateRows[1, i], stateRows[2, i], stateRows[3, i])
    }

    ghost function Current(): State
      requires Valid()
      reads stateRows
    {
      State(Col(0), Col(1), Col(2), Col(3))
    }

    ghost function Key(round: nat): State
      requires Valid() && round < 15
      reads roundKey
    {
      Load(roundKey[16 * round..16 * round + 16])
    }

    method KeyExpansion()
      requires Valid() && keyWords in {4, 6, 8} && numRounds == keyWords + 6
      modifies roundKey
      ensures Expanded(roundKey[..], keyBytes[..], keyWords, 4 * (numRounds + 1))
    {
      hide Expanded, ScheduleStep, AddColumn, WordAt;
      CopyKey();
      var i := keyWords;
      while i < 4 * (numRounds + 1)
        invariant keyWords <= i <= 4 * (numRounds + 1)
        invariant Expanded(roundKey[..], keyBytes[..], keyWords, i)
      {
        ghost var before := roundKey[..];
        ConstantIndex(i, keyWords);
        var t0, t1, t2, t3 := NextTemp(i);
        StoreWord(i, t0, t1, t2, t3);
        WordAppended(before, roundKey[..], keyBytes[..], keyWords, i);
        i := i + 1;
      }
    }

    method StoreWord(i: nat, t0: byte, t1: byte, t2: byte, t3: byte)
      requires roundKey.Length == 240 && 0 < keyWords <= i < 60
      modifies roundKey
      ensures roundKey[..4 * i] == old(roundKey[..4 * i])
      ensures WordAt(roundKey[..], i) == AddColumn(WordAt(old(roundKey[..]), i - keyWords), Column(t0, t1, t2, t3))
    {
      roundKey[i * 4] := roundKey[(i - keyWords) * 4] ^ t0;
      roundKey[i * 4 + 1] := roundKey[(i - keyWords) * 4 + 1] ^ t1;
      roundKey[i * 4 + 2] := roundKey[(i - keyWords) * 4 + 2] ^ t2;
      roundKey[i * 4 + 3] := roundKey[(i - keyWords) * 4 + 3] ^ t3;
    }

    /** The first round key is the key itself. */
    method CopyKey()
      requires Valid() && 0 < keyWords <= 8
      modifies roundKey
      ensures Expanded(roundKey[..], keyBytes[..], keyWords, keyWords)
    {
      var i := 0;
      while i < keyWords
        invariant 0 <= i <= keyWords
        invariant forall j :: 0 <= j < 4 * i ==> roundKey[j] == keyBytes[j]
      {
        roundKey[i * 4] := keyBytes[i * 4];
        roundKey[i * 4 + 1] := keyBytes[i * 4 + 1];
        roundKey[i * 4 + 2] := keyBytes[i * 4 + 2];
        roundKey[i * 4 + 3] := keyBytes[i * 4 + 3];
        i := i + 1;
      }
      assert roundKey[..4 * keyWords] == keyBytes[..4 * keyWords];
      KeyIsPrefix(roundKey[..], keyBytes[..], keyWords);
    }

    /** `temp`, after the rotation and substitution that word `i` asks for. */
    method NextTemp(i: nat) returns (t0: byte, t1: byte, t2: byte, t3: byte)
      requires Valid() && keyWords in {4, 6, 8} && numRounds == keyWords + 6 && keyWords <= i < 4 * (numRounds + 1)
      ensures i / keyWords >= 1 && Column(t0, t1, t2, t3) == ScheduleStep(WordAt(roundKey[..], i - 1), keyWords, i)
    {
      hide SBox, Power, Xor;
      t0, t1 := roundKey[(i - 1) * 4], roundKey[(i - 1) * 4 + 1];
      t2, t3 := roundKey[(i - 1) * 4 + 2], roundKey[(i - 1) * 4 + 3];
      ConstantIndex(i, keyWords);
      if i % keyWords == 0 {
        t0, t1, t2, t3 := t1, t2, t3, t0;
        t0, t1, t2, t3 := SBox(t0), SBox(t1), SBox(t2), SBox(t3);
        RoundConstants(i / keyWords);
        t0 := Xor(t0, RCON[i / keyWords]);
      } else if keyWords > 6 && i % keyWords == 4 {
        t0, t1, t2, t3 := SBox(t0), SBox(t1), SBox(t2), SBox(t3);
      }
    }

    method AddRoundKey(round: nat)
      requires Valid() && round < 15
      modifies stateRows
      ensures Current() == AddKey(old(Current()), Key(round))
    {
      var i := 0;
      while i < 4
        invariant 0 <= i <= 4
        invariant forall c :: 0 <= c < 4 ==> Col(c) == if c < i then AddColumn(old(Col(c)), KeyColumn(round, c)) else old(Col(c))
      {
        AddKeyColumn(round, i);
        i := i + 1;
      }
      KeyByColumns(round);
    }

    ghost function KeyColumn(round: nat, c: nat): Column
      requires Valid() && round < 15 && c < 4
      reads roundKey
    {
      WordAt(roundKey[..], 4 * round + c)
    }

    lemma KeyByColumns(round: nat)
      requires Valid() && round < 15
      ensures Key(round) == State(KeyColumn(round, 0), KeyColumn(round, 1), KeyColumn(round, 2), KeyColumn(round, 3))
    {
    }

    lemma KeyBytes(round: nat, i: nat)
      requires Valid() && round < 15 && i < 4
      ensures var at := 16 * round + 4 * i;
              KeyColumn(round, i) == Column(roundKey[at], roundKey[at + 1], roundKey[at + 2], roundKey[at + 3])
    {
      assert 4 * (4 * round + i) == 16 * round + 4 * i;
    }

    /** The inner loop of `AddRoundKey`. */
    method AddKeyColumn(round: nat, i: nat)
      requires Valid() && round < 15 && i < 4
      modifies stateRows
      ensures Col(i) == AddColumn(old(Col(i)), KeyColumn(round, i))
      ensures forall c :: 0 <= c < 4 && c != i ==> Col(c) == old(Col(c))
    {
      hide Xor, AddColumn, WordAt;
      KeyBytes(round, i);
      var j := 0;
      while j < 4
        invariant 0 <= j <= 4
        invariant forall r, c :: 0 <= r < 4 && 0 <= c < 4 ==>
                    stateRows[r, c] == if c == i && r < j then Xor(old(stateRows[r, c]), roundKey[16 * round + 4 * i + r]) else old(stateRows[r, c])
      {
        stateRows[j, i] := Xor(stateRows[j, i], roundKey[round * 4 * 4 + i * 4 + j]);
        j := j + 1;
      }
      ColumnAdded(old(Col(i)), KeyColumn(round, i));
    }

    method SubBytes()
      requires Valid()
      modifies stateRows
      ensures Current() == Rijndael.SubBytes(old(Current()))
    {
      hide SBox;
      var i := 0;
      while i < 4
        invariant 0 <= i <= 4
        invariant forall r, c :: 0 <= r < 4 && 0 <= c < 4 ==> stateRows[r, c] == if r < i then SBox(old(stateRows[r, c])) else old(stateRows[r, c])
      {
        var j := 0;
        while j < 4
          invariant 0 <= j <= 4
          invariant forall r, c :: 0 <= r < 4 && 0 <= c < 4 ==>
                      stateRows[r, c] == if r < i || (r == i && c < j) then SBox(old(stateRows[r, c])) else old(stateRows[r, c])
        {
          stateRows[i, j] := SBox(stateRows[i, j]);
          j := j + 1;
        }
        i := i + 1;
      }
    }

    method InvSubBytes()
      requires Valid()
      modifies stateRows
      ensures Current() == Rijndael.InvSubBytes(old(Current()))
    {
      hide InvSBox;
      var i := 0;
      while i < 4
        invariant 0 <= i <= 4
        invariant forall r, c :: 0 <= r < 4 && 0 <= c < 4 ==> stateRows[r, c] == if r < i then InvSBox(old(stateRows[r, c])) else old(stateRows[r, c])
      {
        var j := 0;
        while j < 4
          invariant 0 <= j <= 4
          invariant forall r, c :: 0 <= r < 4 && 0 <= c < 4 ==>
                      stateRows[r, c] == if r < i || (r == i && c < j) then InvSBox(old(stateRows[r, c])) else old(stateRows[r, c])
        {
          stateRows[i, j] := InvSBox(stateRows[i, j]);
          j := j + 1;
        }
        i := i + 1;
      }
    }

    twostate predicate RowsKept(k: nat)
      requires Valid()
      reads stateRows
    {
      forall r, c :: 0 <= r < 4 && 0 <= c < 4 && r != k ==> stateRows[r, c] == old(stateRows[r, c])
    }

    // Rows are rotated one at a time.

    method RotateRow1Left()
      requires Valid()
      modifies stateRows
      ensures RowsKept(1)
      ensures stateRows[1, 0] == old(stateRows[1, 1])
      ensures stateRows[1, 1] == old(stateRows[1, 2])
      ensures stateRows[1, 2] == old(stateRows[1, 3])
      ensures stateRows[1, 3] == old(stateRows[1, 0])
    {
      var temp := stateRows[1, 0];
      stateRows[1, 0] := stateRows[1, 1];
      stateRows[1, 1] := stateRows[1, 2];
      stateRows[1, 2] := stateRows[1, 3];
      stateRows[1, 3] := temp;
    }

    method RotateRow2()
      requires Valid()
      modifies stateRows
      ensures RowsKept(2)
      ensures stateRows[2, 0] == old(stateRows[2, 2])
      ensures stateRows[2, 1] == old(stateRows[2, 3])
      ensures stateRows[2, 2] == old(stateRows[2, 0])
      ensures stateRows[2, 3] == old(stateRows[2, 1])
    {
      var temp := stateRows[2, 0];
      stateRows[2, 0] := stateRows[2, 2];
      stateRows[2, 2] := temp;
      temp := stateRows[2, 1];
      stateRows[2, 1] := stateRows[2, 3];
      stateRows[2, 3] := temp;
    }

    method RotateRow3Left()
      requires Valid()
      modifies stateRows
      ensures RowsKept(3)
      ensures stateRows[3, 0] == old(stateRows[3, 3])
      ensures stateRows[3, 1] == old(stateRows[3, 0])
      ensures stateRows[3, 2] == old(stateRows[3, 1])
      ensures stateRows[3, 3] == old(stateRows[3, 2])
    {
      var temp := stateRows[3, 0];
      stateRows[3, 0] := stateRows[3, 3];
      stateRows[3, 3] := stateRows[3, 2];
      stateRows[3, 2] := stateRows[3, 1];
      stateRows[3, 1] := temp;
    }

    method RotateRow1Right()
      requires Valid()
      modifies stateRows
      ensures RowsKept(1)
      ensures stateRows[1, 0] == old(stateRows[1, 3])
      ensures stateRows[1, 1] == old(stateRows[1, 0])
      ensures stateRows[1, 2] == old(stateRows[1, 1])
      ensures stateRows[1, 3] == old(stateRows[1, 2])
    {
      var temp := stateRows[1, 3];
      stateRows[1, 3] := stateRows[1, 2];
      stateRows[1, 2] := stateRows[1, 1];
      stateRows[1, 1] := stateRows[1, 0];
      stateRows[1, 0] := temp;
    }

    method RotateRow3Right()
      requires Valid()
      modifies stateRows
      ensures RowsKept(3)
      ensures stateRows[3, 0] == old(stateRows[3, 1])
      ensures stateRows[3, 1] == old(stateRows[3, 2])
      ensures stateRows[3, 2] == old(stateRows[3, 3])
      ensures stateRows[3, 3] == old(stateRows[3, 0])
    {
      var temp := stateRows[3, 0];
      stateRows[3, 0] := stateRows[3, 1];
      stateRows[3, 1] := stateRows[3, 2];
      stateRows[3, 2] := stateRows[3, 3];
      stateRows[3, 3] := temp;
    }

    method ShiftRows()
      requires Valid()
      modifies stateRows
      ensures Current() == Rijndael.ShiftRows(old(Current()))
    {
      RotateRow1Left();
      RotateRow2();
      RotateRow3Left();
    }

    method InvShiftRows()
      requires Valid()
      modifies stateRows
      ensures Current() == Rijndael.InvShiftRows(old(Current()))
    {
      RotateRow1Right();
      RotateRow2();
      RotateRow3Right();
    }

    method MixColumns()
      requires Valid()
      modifies stateRows
      ensures Current() == Rijndael.MixColumns(old(Current()))
    {
      hide MixColumn;
      var i := 0;
      while i < 4
        invariant 0 <= i <= 4
        invariant forall c :: 0 <= c < 4 ==> Col(c) == if c < i then MixColumn(old(Col(c))) else old(Col(c))
      {
        MixOneColumn(i);
        i := i + 1;
      }
    }

    /** The loop body of `MixColumns`; the macro's product is cut to a byte when `Tm` is stored. */
    method MixOneColumn(i: nat)
      requires Valid() && i < 4
      modifies stateRows
      ensures Col(i) == MixColumn(old(Col(i)))
      ensures forall c :: 0 <= c < 4 && c != i ==> Col(c) == old(Col(c))
    {
      hide MixRow, Store, WideXtime, Xor;
      var t := stateRows[0, i];
      var b, c, d := stateRows[1, i], stateRows[2, i], stateRows[3, i];
      var tmp := Xor(Xor(Xor(t, b), c), d);
      MixRowsByMacro(t, b, c, d, tmp);
      stateRows[0, i] := Xor(t, Xor(Store(WideXtime(Xor(t, b) as bv32)), tmp));
      stateRows[1, i] := Xor(b, Xor(Store(WideXtime(Xor(b, c) as bv32)), tmp));
      stateRows[2, i] := Xor(c, Xor(Store(WideXtime(Xor(c, d) as bv32)), tmp));
      stateRows[3, i] := Xor(d, Xor(Store(WideXtime(Xor(d, t) as bv32)), tmp));
    }

    method InvMixColumns()
      requires Valid()
      modifies stateRows
      ensures Current() == Rijndael.InvMixColumns(old(Current()))
    {
      hide InvMixColumn;
      var i := 0;
      while i < 4
        invariant 0 <= i <= 4
        invariant forall c :: 0 <= c < 4 ==> Col(c) == if c < i then InvMixColumn(old(Col(c))) else old(Col(c))
      {
        InvMixOneColumn(i);
        i := i + 1;
      }
    }

    /** The loop body of `InvMixColumns`: sums of four wide products, cut to a byte when stored. */
    method InvMixOneColumn(i: nat)
      requires Valid() && i < 4
      modifies stateRows
      ensures Col(i) == InvMixColumn(old(Col(i)))
      ensures forall c :: 0 <= c < 4 && c != i ==> Col(c) == old(Col(c))
    {
      hide InvMixRow, WideInvRow;
      var a, b, c, d := stateRows[0, i], stateRows[1, i], stateRows[2, i], stateRows[3, i];
      InvMixRowByMacro(a, b, c, d);
      InvMixRowByMacro(b, c, d, a);
      InvMixRowByMacro(c, d, a, b);
      InvMixRowByMacro(d, a, b, c);
      stateRows[0, i] := Store(WideInvRow(a, b, c, d));
      stateRows[1, i] := Store(WideInvRow(b, c, d, a));
      stateRows[2, i] := Store(WideInvRow(c, d, a, b));
      stateRows[3, i] := Store(WideInvRow(d, a, b, c));
    }

    /** Copying `g_in` to `g_state`, column by column. */
    method LoadState()
      requires Valid()
      modifies stateRows
      ensures Current() == Load(inBlock[..])
    {
      var i := 0;
      while i < 4
        invariant 0 <= i <= 4
        invariant forall c :: 0 <= c < i ==> Col(c) == WordAt(inBlock[..], c)
      {
        label Start:
        var j := 0;
        while j < 4
          invariant 0 <= j <= 4
          invariant forall c :: 0 <= c < i ==> Col(c) == old@Start(Col(c))
          invariant forall r :: 0 <= r < j ==> stateRows[r, i] == inBlock[4 * i + r]
        {
          stateRows[j, i] := inBlock[i * 4 + j];
          j := j + 1;
        }
        i := i + 1;
      }
    }

    /** Copying `g_state` to `g_out`. */
    method StoreState()
      requires Valid()
      modifies outBlock
      ensures outBlock[..] == Unload(Current())
    {
      var i := 0;
      while i < 4
        invariant 0 <= i <= 4
        invariant forall c :: 0 <= c < i ==> WordAt(outBlock[..], c) == Col(c)
      {
        label Start:
        var j := 0;
        while j < 4
          invariant 0 <= j <= 4
          invariant forall k :: 0 <= k < 4 * i ==> outBlock[k] == old@Start(outBlock[k])
          invariant forall r :: 0 <= r < j ==> outBlock[4 * i + r] == stateRows[r, i]
        {
          outBlock[i * 4 + j] := stateRows[j, i];
          j := j + 1;
        }
        i := i + 1;
      }
      assert Load(outBlock[..]) == Current();
      UnloadLoad(outBlock[..]);
    }

    ghost function Keys(): seq<State>
      requires Valid() && numRounds < 15
      reads this, roundKey
    {
      KeysIn(roundKey[..], numRounds)
    }

    /** The loop body of `Cipher`. */
    method Round(round: nat)
      requires Valid() && round < 15
      modifies stateRows
      ensures Current() == AddKey(Rijndael.MixColumns(Scramble(old(Current()))), Key(round))
    {
      hide Load, AddKey, Rijndael.MixColumns, Rijndael.SubBytes, Rijndael.ShiftRows;
      SubBytes();
      ShiftRows();
      MixColumns();
      AddRoundKey(round);
    }

    /** The loop body of `InvCipher`. */
    method InvRound(round: nat)
      requires Valid() && round < 15
      modifies stateRows
      ensures Current() == Rijndael.InvMixColumns(AddKey(Unscramble(old(Current())), Key(round)))
    {
      hide Load, AddKey, Rijndael.InvMixColumns, Rijndael.InvSubBytes, Rijndael.InvShiftRows;
      InvShiftRows();
      InvSubBytes();
      AddRoundKey(round);
      InvMixColumns();
    }

    method Cipher()
      requires Valid() && 1 <= numRounds < 15
      modifies stateRows, outBlock
      ensures outBlock[..] == Unload(Encipher(Load(inBlock[..]), Keys()))
    {
      hide Load, Unload, AddKey, Rijndael.MixColumns, Rijndael.SubBytes, Rijndael.ShiftRows, Current, Rounds;
      LoadState();
      ghost var keys := Keys();
      ghost var start := AddKey(Load(inBlock[..]), keys[0]);
      AddRoundKey(0);
      RoundsStep(start, keys, 0);
      var round := 1;
      while round < numRounds
        invariant 1 <= round <= numRounds
        invariant Current() == Rounds(start, keys, round - 1)
      {
        Round(round);
        RoundsStep(start, keys, round);
        round := round + 1;
      }
      SubBytes();
      ShiftRows();
      AddRoundKey(numRounds);
      StoreState();
    }

    method InvCipher()
      requires Valid() && 1 <= numRounds < 15
      modifies stateRows, outBlock
      ensures outBlock[..] == Unload(Decipher(Load(inBlock[..]), Keys()))
    {
      hide Load, Unload, AddKey, Rijndael.InvMixColumns, Rijndael.InvSubBytes, Rijndael.InvShiftRows, Current, InvRounds;
      LoadState();
      ghost var keys := Keys();
      ghost var start := AddKey(Load(inBlock[..]), keys[numRounds]);
      AddRoundKey(numRounds);
      var round := numRounds - 1;
      while round > 0
        invariant 0 <= round < numRounds
        invariant InvRounds(Current(), keys, round) == InvRounds(start, keys, numRounds - 1)
      {
        InvRoundsStep(Current(), keys, round);
        InvRound(round);
        round := round - 1;
      }
      InvRoundsStep(Current(), keys, 0);
      InvShiftRows();
      InvSubBytes();
      AddRoundKey(0);
      StoreState();
    }

    /** Filling the key and input arrays from the padded buffers. */
    method CopyIn(key: seq<byte>, input: seq<byte>)
      requires Valid() && keyWords * 4 <= 16 && |key| == |input| == 32
      modifies keyBytes, inBlock
      ensures keyBytes[..4 * keyWords] == key[..4 * keyWords] && inBlock[..4 * keyWords] == input[..4 * keyWords]
    {
      var i := 0;
      while i < keyWords * 4
        invariant 0 <= i <= keyWords * 4
        invariant keyBytes[..i] == key[..i] && inBlock[..i] == input[..i]
      {
        keyBytes[i] := key[i];
        inBlock[i] := input[i];
        i := i + 1;
      }
    }

    /** The rounds to run, the copied arrays and the expanded key. */
    method Prepare(nk: nat, key: seq<byte>, input: seq<byte>)
      requires Valid() && nk == 4 && |key| == |input| == 32
      modifies this, inBlock, roundKey, keyBytes
      ensures numRounds == nk + 6 && Keys() == RoundKeys(key, nk, nk + 6) && inBlock[..] == input[..16]
    {
      keyWords := nk;
      numRounds := keyWords + 6;
      CopyIn(key, input);
      KeyExpansion();
      ExpandedKeys(roundKey[..], keyBytes[..], key, keyWords, numRounds);
      hide RoundKeys, KeysIn, Expanded;
      assert inBlock[..] == inBlock[..16];
    }

    /** `AES_Encrypt`, for the key length whose copy loop stays inside `g_in`. */
    method AesEncrypt(bits: int, input: seq<byte>, sizeIn: int, key: seq<byte>, sizeKey: int) returns (ret: int, out: seq<byte>)
      requires Valid() && CopyStaysInside(bits) && sizeIn <= |input| && sizeKey <= |key|
      modifies this, inBlock, outBlock, stateRows, roundKey, keyBytes
      ensures ret == if bits !in {128, 192, 256} then -1 else if sizeIn < 0 || sizeKey < 0 then -2 else 16
      ensures ret == 16 ==> out == EncryptBlock(Padded(key, sizeKey), 4, Padded(input, sizeIn)[..16])
    {
      hide Padded, Load, Unload, Encipher, RoundKeys, Keys;
      out := [];
      if bits != 128 && bits != 192 && bits != 256 { return WRONG_NUM_ROUNDS, out; }
      if sizeIn < 0 || sizeKey < 0 { return INVALID_PARAMETER, out; }
      Prepare(bits / 32, Padded(key, sizeKey), Padded(input, sizeIn));
      Cipher();
      return 16, outBlock[..];
    }

    /** `AES_Decrypt`, likewise. */
    method AesDecrypt(bits: int, input: seq<byte>, sizeIn: int, key: seq<byte>, sizeKey: int) returns (ret: int, out: seq<byte>)
      requires Valid() && CopyStaysInside(bits) && sizeIn <= |input| && sizeKey <= |key|
      modifies this, inBlock, outBlock, stateRows, roundKey, keyBytes
      ensures ret == if bits !in {128, 192, 256} then -1 else if sizeIn < 0 || sizeKey < 0 then -2 else 16
      ensures ret == 16 ==> out == DecryptBlock(Padded(key, sizeKey), 4, Padded(input, sizeIn)[..16])
    {
      hide Padded, Load, Unload, Decipher, RoundKeys, Keys;
      out := [];
      if bits != 128 && bits != 192 && bits != 256 { return WRONG_NUM_ROUNDS, out; }
      if sizeIn < 0 || sizeKey < 0 { return INVALID_PARAMETER, out; }
      Prepare(bits / 32, Padded(key, sizeKey), Padded(input, sizeIn));
      InvCipher();
      return 16, outBlock[..];
    }
  }

  const WRONG_NUM_ROUNDS := -1
  const INVALID_PARAMETER := -2

  /** The copy loop runs over `g_Nk * 4` bytes of the 16-byte input array. */
  predicate CopyStaysInside(bits: int) { bits in {128, 192, 256} ==> bits / 32 * 4 <= 16 }

  lemma OnlyShortKeysStayInside(bits: int)
    requires bits in {128, 192, 256}
    ensures CopyStaysInside(bits) <==> bits == 128
  {
  }

  /** A 32-byte buffer: what was given, cut or padded with zeros. */
  function Padded(bytes: seq<byte>, size: int): (r: seq<byte>)
    requires size <= |bytes|
    ensures |r| == 32
    ensures forall i :: 0 <= i < 32 ==> r[i] == if i < size then bytes[i] else 0
  {
    var n := if size > 32 then 32 else if size < 0 then 0 else size;
    bytes[..n] + seq(32 - n, _ => 0)
  }

  lemma ExpandedKeys(bytes: seq<byte>, key: seq<byte>, given: seq<byte>, nk: nat, nr: nat)
    requires Expanded(bytes, key, nk, 4 * (nr + 1)) && |given| >= 4 * nk && key[..4 * nk] == given[..4 * nk]
    ensures 16 * (nr + 1) <= |bytes| && KeysIn(bytes, nr) == RoundKeys(given, nk, nr)
  {
    RoundKeysOfPrefix(key, given, nk, nr);
    forall r | 0 <= r <= nr ensures KeysIn(bytes, nr)[r] == RoundKeys(key, nk, nr)[r] {
      RoundKeyByWords(bytes, key, nk, nr, r);
    }
  }

  lemma RoundKeyByWords(bytes: seq<byte>, key: seq<byte>, nk: nat, nr: nat, r: nat)
    requires Expanded(bytes, key, nk, 4 * (nr + 1)) && r <= nr
    ensures Load(bytes[16 * r..16 * r + 16]) == RoundKey(key, nk, r)
  {
    hide ScheduleWord;
    var words := bytes[16 * r..16 * r + 16];
    assert WordAt(words, 0) == WordAt(bytes, 4 * r) && WordAt(words, 1) == WordAt(bytes, 4 * r + 1);
    assert WordAt(words, 2) == WordAt(bytes, 4 * r + 2) && WordAt(words, 3) == WordAt(bytes, 4 * r + 3);
  }

  /** With the same key, decrypting an encrypted message gives its first 16 bytes, padded with zeros. */
  method RoundTrip(engine: Engine, input: seq<byte>, key: seq<byte>) returns (plain: seq<byte>)
    requires engine.Valid()
    modifies engine, engine.inBlock, engine.outBlock, engine.stateRows, engine.roundKey, engine.keyBytes
    ensures plain == Padded(input, |input|)[..16]
  {
    hide EncryptBlock, DecryptBlock;
    var ret, cipher := engine.AesEncrypt(128, input, |input|, key, |key|);
    assert Padded(cipher, 16)[..16] == cipher;
    ret, plain := engine.AesDecrypt(128, cipher, 16, key, |key|);
    DecryptUndoesEncrypt(Padded(key, |key|), 4, Padded(input, |input|)[..16]);
  }

  function KeysIn(bytes: seq<byte>, nr: nat): (keys: seq<State>)
    requires 16 * (nr + 1) <= |bytes|
    ensures |keys| == nr + 1
  {
    seq(nr + 1, r requires 0 <= r <= nr => Load(bytes[16 * r..16 * r + 16]))
  }

  function WideSum4(a: bv32, b: bv32, c: bv32, d: bv32): bv32 { a ^ b ^ c ^ d }

  function WideInvRow(a: byte, b: byte, c: byte, d: byte): bv32 {
    WideSum4(WideMultiply(a as bv32, 0x0e), WideMultiply(b as bv32, 0x0b), WideMultiply(c as bv32, 0x0d), WideMultiply(d as bv32, 0x09))
  }

  lemma StoreOfSum(a: bv32, b: bv32, c: bv32, d: bv32)
    ensures Store(WideSum4(a, b, c, d)) == Sum4(Store(a), Store(b), Store(c), Store(d))
  {
    assert ((a ^ b ^ c ^ d) & 0xFF) as byte
        == (((a & 0xFF) as byte) ^ ((b & 0xFF) as byte)) ^ (((c & 0xFF) as byte) ^ ((d & 0xFF) as byte));
  }

  lemma InvMixRowByMacro(a: byte, b: byte, c: byte, d: byte)
    ensures Store(WideInvRow(a, b, c, d)) == InvMixRow(a, b, c, d)
  {
    hide Store, WideMultiply, WideSum4, Product, Sum4;
    MultiplyByE(a);
    MultiplyByB(b);
    MultiplyByD(c);
    MultiplyBy9(d);
    StoreOfSum(WideMultiply(a as bv32, 0x0e), WideMultiply(b as bv32, 0x0b), WideMultiply(c as bv32, 0x0d), WideMultiply(d as bv32, 0x09));
  }

  /** Adding the whole column and twice the sum of two neighbours is the matrix row. */
  lemma MixRowByMacro(a: byte, b: byte, c: byte, d: byte, tmp: byte)
    requires tmp == Xor(Xor(Xor(a, b), c), d)
    ensures Xor(a, Xor(Store(WideXtime(Xor(a, b) as bv32)), tmp)) == MixRow(a, b, c, d)
  {
    hide Store, WideXtime, Product, Double, Xor;
    XtimeIsProduct(Xor(a, b));
    ProductBy2(Xor(a, b));
    DoubleIsLinear(a, b);
    ProductBy2(a);
    ProductBy3(b);
    RowSum(a, b, c, d, Double(a), Double(b));
  }

  lemma RowSum(a: byte, b: byte, c: byte, d: byte, p: byte, q: byte)
    ensures Xor(a, Xor(Xor(p, q), Xor(Xor(Xor(a, b), c), d))) == Xor(Xor(p, Xor(q, b)), Xor(c, d))
  {
    assert a ^ ((p ^ q) ^ (((a ^ b) ^ c) ^ d)) == (p ^ (q ^ b)) ^ (c ^ d);
  }

  lemma TotalTurned(a: byte, b: byte, c: byte, d: byte)
    ensures Xor(Xor(Xor(a, b), c), d) == Xor(Xor(Xor(b, c), d), a)
  {
    assert ((a ^ b) ^ c) ^ d == ((b ^ c) ^ d) ^ a;
  }

  lemma MixRowsByMacro(a: byte, b: byte, c: byte, d: byte, tmp: byte)
    requires tmp == Xor(Xor(Xor(a, b), c), d)
    ensures Xor(a, Xor(Store(WideXtime(Xor(a, b) as bv32)), tmp)) == MixRow(a, b, c, d)
    ensures Xor(b, Xor(Store(WideXtime(Xor(b, c) as bv32)), tmp)) == MixRow(b, c, d, a)
    ensures Xor(c, Xor(Store(WideXtime(Xor(c, d) as bv32)), tmp)) == MixRow(c, d, a, b)
    ensures Xor(d, Xor(Store(WideXtime(Xor(d, a) as bv32)), tmp)) == MixRow(d, a, b, c)
  {
    hide Store, WideXtime, Xor, MixRow;
    TotalTurned(a, b, c, d);
    TotalTurned(b, c, d, a);
    TotalTurned(c, d, a, b);
    MixRowByMacro(a, b, c, d, tmp);
    MixRowByMacro(b, c, d, a, tmp);
    MixRowByMacro(c, d, a, b, tmp);
    MixRowByMacro(d, a, b, c, tmp);
  }

  lemma ColumnAdded(c: Column, k: Column)
    ensures AddColumn(c, k) == Column(Xor(c.b0, k.b0), Xor(c.b1, k.b1), Xor(c.b2, k.b2), Xor(c.b3, k.b3))
  {
  }

  lemma ConstantIndex(i: nat, nk: nat)
    requires nk in {4, 6, 8} && nk <= i < 4 * (nk + 7)
    ensures 1 <= i / nk <= 10
  {
    if nk == 4 {} else if nk == 6 {} else {}
  }

  /** The first `n` words are those of the schedule. */
  ghost predicate Expanded(bytes: seq<byte>, key: seq<byte>, nk: nat, n: nat) {
    nk > 0 && |key| >= 4 * nk && |bytes| >= 4 * n && forall k :: 0 <= k < n ==> WordAt(bytes, k) == ScheduleWord(key, nk, k)
  }

  lemma KeyIsPrefix(bytes: seq<byte>, key: seq<byte>, nk: nat)
    requires nk > 0 && |key| >= 4 * nk && |bytes| >= 4 * nk && bytes[..4 * nk] == key[..4 * nk]
    ensures Expanded(bytes, key, nk, nk)
  {
    forall k | 0 <= k < nk ensures WordAt(bytes, k) == ScheduleWord(key, nk, k) {
      assert WordAt(bytes, k) == WordAt(bytes[..4 * nk], k) == WordAt(key[..4 * nk], k) == WordAt(key, k);
    }
  }

  lemma WordAppended(before: seq<byte>, bytes: seq<byte>, key: seq<byte>, nk: nat, i: nat)
    requires Expanded(before, key, nk, i) && nk <= i && i / nk >= 1
    requires |bytes| == |before| && 4 * i + 3 < |bytes| && bytes[..4 * i] == before[..4 * i]
    requires WordAt(bytes, i) == AddColumn(WordAt(before, i - nk), ScheduleStep(WordAt(before, i - 1), nk, i))
    ensures Expanded(bytes, key, nk, i + 1)
  {
    hide ScheduleStep, AddColumn;
    forall k | 0 <= k < i ensures WordAt(bytes, k) == ScheduleWord(key, nk, k) {
      assert WordAt(bytes, k) == WordAt(bytes[..4 * i], k) == WordAt(before[..4 * i], k) == WordAt(before, k);
    }
  }
}
