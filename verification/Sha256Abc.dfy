/** The hash of "abc", step by step: one block, as an example. */
module Sha256Abc {
  import opened Bytes
  import opened Sha256
  import opened Sha256Roots

  function Abc(): (s: seq<bv8>) { [0x61, 0x62, 0x63] }

  // The padded message: the three bytes, a one bit, and the length of 24 bits.
  lemma AbcByte(i: nat)
    requires i < 64
    ensures |Padded(Abc())| == 64
    ensures Padded(Abc())[i] == if i < 3 then Abc()[i] else if i == 3 then 0x80 else if i == 63 then 0x18 else 0
  {
    assert PadZeros(3) == 52 && 24 % TWO64 == 24;
    AbcLength(i);
    hide LengthBytes;
  }

  lemma AbcLength(i: nat)
    ensures 56 <= i < 64 ==> LengthBytes(24)[i - 56] == if i == 63 then 0x18 else 0
  {
    SmallBytes();
    hide ByteOf;
  }

  lemma SmallBytes()
    ensures ByteOf(0) == 0 && ByteOf(24) == 0x18
  {
  }

  /** Word `t` of the schedule of `p` is `w`. */
  predicate Word(p: seq<bv8>, t: nat, w: bv32) { t < 64 && |p| == 64 && ScheduleWord(p, t) == w }

  lemma FirstWord(p: seq<bv8>, t: nat)
    requires p == Padded(Abc()) && t < 16
    ensures Word(p, t, if t == 0 then 0x61626380 else if t == 15 then 0x18 else 0)
  {
    AbcByte(4 * t);
    AbcByte(4 * t + 1);
    AbcByte(4 * t + 2);
    AbcByte(4 * t + 3);
    hide Padded;
    ScheduleStep(p, t);
  }

  lemma NextWord(p: seq<bv8>, t: nat, w2: bv32, w7: bv32, w15: bv32, w16: bv32, w: bv32)
    requires 16 <= t < 64 && Word(p, t - 2, w2) && Word(p, t - 7, w7) && Word(p, t - 15, w15) && Word(p, t - 16, w16) && ExpandWord(w2, w7, w15, w16) == w
    ensures Word(p, t, w)
  {
    hide ExpandWord;
    ScheduleStep(p, t);
  }

  /** The working variables after `t` steps are `s`. */
  predicate State(p: seq<bv8>, t: nat, s: Words) { t <= 64 && |p| == 64 && After(INITIAL, p, t) == s }

  /** One step more: the two new variables, and the shift of the others. */
  lemma Next(p: seq<bv8>, t: nat, s: Words, w: bv32, k: bv32, a: bv32, e: bv32) returns (s': Words)
    requires t < 64 && State(p, t, s) && Word(p, t, w) && Constant(t) == k && Stepped(s, k, w).a == a && Stepped(s, k, w).e == e
    ensures s' == Words(a, s.a, s.b, s.c, e, s.e, s.f, s.g) && State(p, t + 1, s')
  {
    hide Constant, ScheduleWord, FirstTemp, SecondTemp, Plus;
    AfterStep(INITIAL, p, t);
    s' := Stepped(s, k, w);
  }

  lemma Words0(p: seq<bv8>)
    requires p == Padded(Abc())
    ensures Word(p, 0, 0x61626380) && Word(p, 1, 0x00000000) && Word(p, 2, 0x00000000) && Word(p, 3, 0x00000000)
  {
    hide Word, Padded;
    FirstWord(p, 0);
    FirstWord(p, 1);
    FirstWord(p, 2);
    FirstWord(p, 3);
  }

  lemma Words1(p: seq<bv8>)
    requires p == Padded(Abc())
    ensures Word(p, 4, 0x00000000) && Word(p, 5, 0x00000000) && Word(p, 6, 0x00000000) && Word(p, 7, 0x00000000)
  {
    hide Word, Padded;
    FirstWord(p, 4);
    FirstWord(p, 5);
    FirstWord(p, 6);
    FirstWord(p, 7);
  }

  lemma Words2(p: seq<bv8>)
    requires p == Padded(Abc())
    ensures Word(p, 8, 0x00000000) && Word(p, 9, 0x00000000) && Word(p, 10, 0x00000000) && Word(p, 11, 0x00000000)
  {
    hide Word, Padded;
    FirstWord(p, 8);
    FirstWord(p, 9);
    FirstWord(p, 10);
    FirstWord(p, 11);
  }

  lemma Words3(p: seq<bv8>)
    requires p == Padded(Abc())
    ensures Word(p, 12, 0x00000000) && Word(p, 13, 0x00000000) && Word(p, 14, 0x00000000) && Word(p, 15, 0x00000018)
  {
    hide Word, Padded;
    FirstWord(p, 12);
    FirstWord(p, 13);
    FirstWord(p, 14);
    FirstWord(p, 15);
  }

  lemma Expanded4()
    ensures ExpandWord(0x00000000, 0x00000000, 0x00000000, 0x61626380) == 0x61626380
    ensures ExpandWord(0x00000018, 0x00000000, 0x00000000, 0x00000000) == 0x000f0000
    ensures ExpandWord(0x61626380, 0x00000000, 0x00000000, 0x00000000) == 0x7da86405
    ensures ExpandWord(0x000f0000, 0x00000000, 0x00000000, 0x00000000) == 0x600003c6
  {
  }

  lemma Words4(p: seq<bv8>)
    requires p == Padded(Abc())
    ensures Word(p, 16, 0x61626380) && Word(p, 17, 0x000f0000) && Word(p, 18, 0x7da86405) && Word(p, 19, 0x600003c6)
  {
    hide Word, ExpandWord, Padded;
    Words0(p);
    Words1(p);
    Words2(p);
    Words3(p);
    Expanded4();
    NextWord(p, 16, 0x00000000, 0x00000000, 0x00000000, 0x61626380, 0x61626380);
    NextWord(p, 17, 0x00000018, 0x00000000, 0x00000000, 0x00000000, 0x000f0000);
    NextWord(p, 18, 0x61626380, 0x00000000, 0x00000000, 0x00000000, 0x7da86405);
    NextWord(p, 19, 0x000f0000, 0x00000000, 0x00000000, 0x00000000, 0x600003c6);
  }

  lemma Expanded5()
    ensures ExpandWord(0x7da86405, 0x00000000, 0x00000000, 0x00000000) == 0x3e9d7b78
    ensures ExpandWord(0x600003c6, 0x00000000, 0x00000000, 0x00000000) == 0x0183fc00
    ensures ExpandWord(0x3e9d7b78, 0x00000018, 0x00000000, 0x00000000) == 0x12dcbfdb
    ensures ExpandWord(0x0183fc00, 0x61626380, 0x00000000, 0x00000000) == 0xe2e2c38e
  {
  }

  lemma Words5(p: seq<bv8>)
    requires p == Padded(Abc())
    ensures Word(p, 20, 0x3e9d7b78) && Word(p, 21, 0x0183fc00) && Word(p, 22, 0x12dcbfdb) && Word(p, 23, 0xe2e2c38e)
  {
    hide Word, ExpandWord, Padded;
    Words1(p);
    Words2(p);
    Words3(p);
    Words4(p);
    Expanded5();
    NextWord(p, 20, 0x7da86405, 0x00000000, 0x00000000, 0x00000000, 0x3e9d7b78);
    NextWord(p, 21, 0x600003c6, 0x00000000, 0x00000000, 0x00000000, 0x0183fc00);
    NextWord(p, 22, 0x3e9d7b78, 0x00000018, 0x00000000, 0x00000000, 0x12dcbfdb);
    NextWord(p, 23, 0x0183fc00, 0x61626380, 0x00000000, 0x00000000, 0xe2e2c38e);
  }

  lemma Expanded6()
    ensures ExpandWord(0x12dcbfdb, 0x000f0000, 0x00000000, 0x00000000) == 0xc8215c1a
    ensures ExpandWord(0xe2e2c38e, 0x7da86405, 0x00000000, 0x00000000) == 0xb73679a2
    ensures ExpandWord(0xc8215c1a, 0x600003c6, 0x00000000, 0x00000000) == 0xe5bc3909
    ensures ExpandWord(0xb73679a2, 0x3e9d7b78, 0x00000000, 0x00000000) == 0x32663c5b
  {
  }

  lemma Words6(p: seq<bv8>)
    requires p == Padded(Abc())
    ensures Word(p, 24, 0xc8215c1a) && Word(p, 25, 0xb73679a2) && Word(p, 26, 0xe5bc3909) && Word(p, 27, 0x32663c5b)
  {
    hide Word, ExpandWord, Padded;
    Words2(p);
    Words3(p);
    Words4(p);
    Words5(p);
    Expanded6();
    NextWord(p, 24, 0x12dcbfdb, 0x000f0000, 0x00000000, 0x00000000, 0xc8215c1a);
    NextWord(p, 25, 0xe2e2c38e, 0x7da86405, 0x00000000, 0x00000000, 0xb73679a2);
    NextWord(p, 26, 0xc8215c1a, 0x600003c6, 0x00000000, 0x00000000, 0xe5bc3909);
    NextWord(p, 27, 0xb73679a2, 0x3e9d7b78, 0x00000000, 0x00000000, 0x32663c5b);
  }

  lemma Expanded7()
    ensures ExpandWord(0xe5bc3909, 0x0183fc00, 0x00000000, 0x00000000) == 0x9d209d67
    ensures ExpandWord(0x32663c5b, 0x12dcbfdb, 0x00000000, 0x00000000) == 0xec8726cb
    ensures ExpandWord(0x9d209d67, 0xe2e2c38e, 0x00000018, 0x00000000) == 0x702138a4
    ensures ExpandWord(0xec8726cb, 0xc8215c1a, 0x61626380, 0x00000018) == 0xd3b7973b
  {
  }

  lemma Words7(p: seq<bv8>)
    requires p == Padded(Abc())
    ensures Word(p, 28, 0x9d209d67) && Word(p, 29, 0xec8726cb) && Word(p, 30, 0x702138a4) && Word(p, 31, 0xd3b7973b)
  {
    hide Word, ExpandWord, Padded;
    Words3(p);
    Words4(p);
    Words5(p);
    Words6(p);
    Expanded7();
    NextWord(p, 28, 0xe5bc3909, 0x0183fc00, 0x00000000, 0x00000000, 0x9d209d67);
    NextWord(p, 29, 0x32663c5b, 0x12dcbfdb, 0x00000000, 0x00000000, 0xec8726cb);
    NextWord(p, 30, 0x9d209d67, 0xe2e2c38e, 0x00000018, 0x00000000, 0x702138a4);
    NextWord(p, 31, 0xec8726cb, 0xc8215c1a, 0x61626380, 0x00000018, 0xd3b7973b);
  }

  lemma Expanded8()
    ensures ExpandWord(0x702138a4, 0xb73679a2, 0x000f0000, 0x61626380) == 0x93f5997f
    ensures ExpandWord(0xd3b7973b, 0xe5bc3909, 0x7da86405, 0x000f0000) == 0x3b68ba73
    ensures ExpandWord(0x93f5997f, 0x32663c5b, 0x600003c6, 0x7da86405) == 0xaff4ffc1
    ensures ExpandWord(0x3b68ba73, 0x9d209d67, 0x3e9d7b78, 0x600003c6) == 0xf10a5c62
  {
  }

  lemma Words8(p: seq<bv8>)
    requires p == Padded(Abc())
    ensures Word(p, 32, 0x93f5997f) && Word(p, 33, 0x3b68ba73) && Word(p, 34, 0xaff4ffc1) && Word(p, 35, 0xf10a5c62)
  {
    hide Word, ExpandWord, Padded;
    Words4(p);
    Words5(p);
    Words6(p);
    Words7(p);
    Expanded8();
    NextWord(p, 32, 0x702138a4, 0xb73679a2, 0x000f0000, 0x61626380, 0x93f5997f);
    NextWord(p, 33, 0xd3b7973b, 0xe5bc3909, 0x7da86405, 0x000f0000, 0x3b68ba73);
    NextWord(p, 34, 0x93f5997f, 0x32663c5b, 0x600003c6, 0x7da86405, 0xaff4ffc1);
    NextWord(p, 35, 0x3b68ba73, 0x9d209d67, 0x3e9d7b78, 0x600003c6, 0xf10a5c62);
  }

  lemma Expanded9()
    ensures ExpandWord(0xaff4ffc1, 0xec8726cb, 0x0183fc00, 0x3e9d7b78) == 0x0a8b3996
    ensures ExpandWord(0xf10a5c62, 0x702138a4, 0x12dcbfdb, 0x0183fc00) == 0x72af830a
    ensures ExpandWord(0x0a8b3996, 0xd3b7973b, 0xe2e2c38e, 0x12dcbfdb) == 0x9409e33e
    ensures ExpandWord(0x72af830a, 0x93f5997f, 0xc8215c1a, 0xe2e2c38e) == 0x24641522
  {
  }

  lemma Words9(p: seq<bv8>)
    requires p == Padded(Abc())
    ensures Word(p, 36, 0x0a8b3996) && Word(p, 37, 0x72af830a) && Word(p, 38, 0x9409e33e) && Word(p, 39, 0x24641522)
  {
    hide Word, ExpandWord, Padded;
    Words5(p);
    Words6(p);
    Words7(p);
    Words8(p);
    Expanded9();
    NextWord(p, 36, 0xaff4ffc1, 0xec8726cb, 0x0183fc00, 0x3e9d7b78, 0x0a8b3996);
    NextWord(p, 37, 0xf10a5c62, 0x702138a4, 0x12dcbfdb, 0x0183fc00, 0x72af830a);
    NextWord(p, 38, 0x0a8b3996, 0xd3b7973b, 0xe2e2c38e, 0x12dcbfdb, 0x9409e33e);
    NextWord(p, 39, 0x72af830a, 0x93f5997f, 0xc8215c1a, 0xe2e2c38e, 0x24641522);
  }

  lemma Expanded10()
    ensures ExpandWord(0x9409e33e, 0x3b68ba73, 0xb73679a2, 0xc8215c1a) == 0x9f47bf94
    ensures ExpandWord(0x24641522, 0xaff4ffc1, 0xe5bc3909, 0xb73679a2) == 0xf0a64f5a
    ensures ExpandWord(0x9f47bf94, 0xf10a5c62, 0x32663c5b, 0xe5bc3909) == 0x3e246a79
    ensures ExpandWord(0xf0a64f5a, 0x0a8b3996, 0x9d209d67, 0x32663c5b) == 0x27333ba3
  {
  }

  lemma Words10(p: seq<bv8>)
    requires p == Padded(Abc())
    ensures Word(p, 40, 0x9f47bf94) && Word(p, 41, 0xf0a64f5a) && Word(p, 42, 0x3e246a79) && Word(p, 43, 0x27333ba3)
  {
    hide Word, ExpandWord, Padded;
    Words6(p);
    Words7(p);
    Words8(p);
    Words9(p);
    Expanded10();
    NextWord(p, 40, 0x9409e33e, 0x3b68ba73, 0xb73679a2, 0xc8215c1a, 0x9f47bf94);
    NextWord(p, 41, 0x24641522, 0xaff4ffc1, 0xe5bc3909, 0xb73679a2, 0xf0a64f5a);
    NextWord(p, 42, 0x9f47bf94, 0xf10a5c62, 0x32663c5b, 0xe5bc3909, 0x3e246a79);
    NextWord(p, 43, 0xf0a64f5a, 0x0a8b3996, 0x9d209d67, 0x32663c5b, 0x27333ba3);
  }

  lemma Expanded11()
    ensures ExpandWord(0x3e246a79, 0x72af830a, 0xec8726cb, 0x9d209d67) == 0x0c4763f2
    ensures ExpandWord(0x27333ba3, 0x9409e33e, 0x702138a4, 0xec8726cb) == 0x840abf27
    ensures ExpandWord(0x0c4763f2, 0x24641522, 0xd3b7973b, 0x702138a4) == 0x7a290d5d
    ensures ExpandWord(0x840abf27, 0x9f47bf94, 0x93f5997f, 0xd3b7973b) == 0x065c43da
  {
  }

  lemma Words11(p: seq<bv8>)
    requires p == Padded(Abc())
    ensures Word(p, 44, 0x0c4763f2) && Word(p, 45, 0x840abf27) && Word(p, 46, 0x7a290d5d) && Word(p, 47, 0x065c43da)
  {
    hide Word, ExpandWord, Padded;
    Words7(p);
    Words8(p);
    Words9(p);
    Words10(p);
    Expanded11();
    NextWord(p, 44, 0x3e246a79, 0x72af830a, 0xec8726cb, 0x9d209d67, 0x0c4763f2);
    NextWord(p, 45, 0x27333ba3, 0x9409e33e, 0x702138a4, 0xec8726cb, 0x840abf27);
    NextWord(p, 46, 0x0c4763f2, 0x24641522, 0xd3b7973b, 0x702138a4, 0x7a290d5d);
    NextWord(p, 47, 0x840abf27, 0x9f47bf94, 0x93f5997f, 0xd3b7973b, 0x065c43da);
  }

  lemma Expanded12()
    ensures ExpandWord(0x7a290d5d, 0xf0a64f5a, 0x3b68ba73, 0x93f5997f) == 0xfb3e89cb
    ensures ExpandWord(0x065c43da, 0x3e246a79, 0xaff4ffc1, 0x3b68ba73) == 0xcc7617db
    ensures ExpandWord(0xfb3e89cb, 0x27333ba3, 0xf10a5c62, 0xaff4ffc1) == 0xb9e66c34
    ensures ExpandWord(0xcc7617db, 0x0c4763f2, 0x0a8b3996, 0xf10a5c62) == 0xa9993667
  {
  }

  lemma Words12(p: seq<bv8>)
    requires p == Padded(Abc())
    ensures Word(p, 48, 0xfb3e89cb) && Word(p, 49, 0xcc7617db) && Word(p, 50, 0xb9e66c34) && Word(p, 51, 0xa9993667)
  {
    hide Word, ExpandWord, Padded;
    Words8(p);
    Words9(p);
    Words10(p);
    Words11(p);
    Expanded12();
    NextWord(p, 48, 0x7a290d5d, 0xf0a64f5a, 0x3b68ba73, 0x93f5997f, 0xfb3e89cb);
    NextWord(p, 49, 0x065c43da, 0x3e246a79, 0xaff4ffc1, 0x3b68ba73, 0xcc7617db);
    NextWord(p, 50, 0xfb3e89cb, 0x27333ba3, 0xf10a5c62, 0xaff4ffc1, 0xb9e66c34);
    NextWord(p, 51, 0xcc7617db, 0x0c4763f2, 0x0a8b3996, 0xf10a5c62, 0xa9993667);
  }

  lemma Expanded13()
    ensures ExpandWord(0xb9e66c34, 0x840abf27, 0x72af830a, 0x0a8b3996) == 0x84badedd
    ensures ExpandWord(0xa9993667, 0x7a290d5d, 0x9409e33e, 0x72af830a) == 0xc21462bc
    ensures ExpandWord(0x84badedd, 0x065c43da, 0x24641522, 0x9409e33e) == 0x1487472c
    ensures ExpandWord(0xc21462bc, 0xfb3e89cb, 0x9f47bf94, 0x24641522) == 0xb20f7a99
  {
  }

  lemma Words13(p: seq<bv8>)
    requires p == Padded(Abc())
    ensures Word(p, 52, 0x84badedd) && Word(p, 53, 0xc21462bc) && Word(p, 54, 0x1487472c) && Word(p, 55, 0xb20f7a99)
  {
    hide Word, ExpandWord, Padded;
    Words9(p);
    Words10(p);
    Words11(p);
    Words12(p);
    Expanded13();
    NextWord(p, 52, 0xb9e66c34, 0x840abf27, 0x72af830a, 0x0a8b3996, 0x84badedd);
    NextWord(p, 53, 0xa9993667, 0x7a290d5d, 0x9409e33e, 0x72af830a, 0xc21462bc);
    NextWord(p, 54, 0x84badedd, 0x065c43da, 0x24641522, 0x9409e33e, 0x1487472c);
    NextWord(p, 55, 0xc21462bc, 0xfb3e89cb, 0x9f47bf94, 0x24641522, 0xb20f7a99);
  }

  lemma Expanded14()
    ensures ExpandWord(0x1487472c, 0xcc7617db, 0xf0a64f5a, 0x9f47bf94) == 0xef57b9cd
    ensures ExpandWord(0xb20f7a99, 0xb9e66c34, 0x3e246a79, 0xf0a64f5a) == 0xebe6b238
    ensures ExpandWord(0xef57b9cd, 0xa9993667, 0x27333ba3, 0x3e246a79) == 0x9fe3095e
    ensures ExpandWord(0xebe6b238, 0x84badedd, 0x0c4763f2, 0x27333ba3) == 0x78bc8d4b
  {
  }

  lemma Words14(p: seq<bv8>)
    requires p == Padded(Abc())
    ensures Word(p, 56, 0xef57b9cd) && Word(p, 57, 0xebe6b238) && Word(p, 58, 0x9fe3095e) && Word(p, 59, 0x78bc8d4b)
  {
    hide Word, ExpandWord, Padded;
    Words10(p);
    Words11(p);
    Words12(p);
    Words13(p);
    Expanded14();
    NextWord(p, 56, 0x1487472c, 0xcc7617db, 0xf0a64f5a, 0x9f47bf94, 0xef57b9cd);
    NextWord(p, 57, 0xb20f7a99, 0xb9e66c34, 0x3e246a79, 0xf0a64f5a, 0xebe6b238);
    NextWord(p, 58, 0xef57b9cd, 0xa9993667, 0x27333ba3, 0x3e246a79, 0x9fe3095e);
    NextWord(p, 59, 0xebe6b238, 0x84badedd, 0x0c4763f2, 0x27333ba3, 0x78bc8d4b);
  }

  lemma Expanded15()
    ensures ExpandWord(0x9fe3095e, 0xc21462bc, 0x840abf27, 0x0c4763f2) == 0xa43fcf15
    ensures ExpandWord(0x78bc8d4b, 0x1487472c, 0x7a290d5d, 0x840abf27) == 0x668b2ff8
    ensures ExpandWord(0xa43fcf15, 0xb20f7a99, 0x065c43da, 0x7a290d5d) == 0xeeaba2cc
    ensures ExpandWord(0x668b2ff8, 0xef57b9cd, 0xfb3e89cb, 0x065c43da) == 0x12b1edeb
  {
  }

  lemma Words15(p: seq<bv8>)
    requires p == Padded(Abc())
    ensures Word(p, 60, 0xa43fcf15) && Word(p, 61, 0x668b2ff8) && Word(p, 62, 0xeeaba2cc) && Word(p, 63, 0x12b1edeb)
  {
    hide Word, ExpandWord, Padded;
    Words11(p);
    Words12(p);
    Words13(p);
    Words14(p);
    Expanded15();
    NextWord(p, 60, 0x9fe3095e, 0xc21462bc, 0x840abf27, 0x0c4763f2, 0xa43fcf15);
    NextWord(p, 61, 0x78bc8d4b, 0x1487472c, 0x7a290d5d, 0x840abf27, 0x668b2ff8);
    NextWord(p, 62, 0xa43fcf15, 0xb20f7a99, 0x065c43da, 0x7a290d5d, 0xeeaba2cc);
    NextWord(p, 63, 0x668b2ff8, 0xef57b9cd, 0xfb3e89cb, 0x065c43da, 0x12b1edeb);
  }

  lemma Steps0(p: seq<bv8>)
    requires p == Padded(Abc())
    ensures State(p, 8, Words(0x85a07b5f, 0xe5030380, 0x2b4209f5, 0x04409a6a, 0x0c657a79, 0x9b27a401, 0x714260ad, 0x43ada245))
  {
    hide State, Word, Constant, Padded;
    StartState(p);
    Words0(p);
    Words1(p);
    Values0();
    var s := INITIAL;
    s := Next(p, 0, s, 0x61626380, 0x428a2f98, 0x5d6aebcd, 0xfa2a4622);
    s := Next(p, 1, s, 0x00000000, 0x71374491, 0x5a6ad9ad, 0x78ce7989);
    s := Next(p, 2, s, 0x00000000, 0xb5c0fbcf, 0xc8c347a7, 0xf92939eb);
    s := Next(p, 3, s, 0x00000000, 0xe9b5dba5, 0xd550f666, 0x24e00850);
    s := Next(p, 4, s, 0x00000000, 0x3956c25b, 0x04409a6a, 0x43ada245);
    s := Next(p, 5, s, 0x00000000, 0x59f111f1, 0x2b4209f5, 0x714260ad);
    s := Next(p, 6, s, 0x00000000, 0x923f82a4, 0xe5030380, 0x9b27a401);
    s := Next(p, 7, s, 0x00000000, 0xab1c5ed5, 0x85a07b5f, 0x0c657a79);
  }

  lemma Steps1(p: seq<bv8>)
    requires p == Padded(Abc())
    ensures State(p, 16, Words(0xb0fa238e, 0xc0645fde, 0xd932eb16, 0x87912990, 0x07590dcd, 0x0b92f20c, 0x745a48de, 0x1e578218))
  {
    hide State, Word, Constant, Padded;
    Steps0(p);
    Words2(p);
    Words3(p);
    Values1();
    var s := Words(0x85a07b5f, 0xe5030380, 0x2b4209f5, 0x04409a6a, 0x0c657a79, 0x9b27a401, 0x714260ad, 0x43ada245);
    s := Next(p, 8, s, 0x00000000, 0xd807aa98, 0x8e04ecb9, 0x32ca2d8c);
    s := Next(p, 9, s, 0x00000000, 0x12835b01, 0x8c87346b, 0x1cc92596);
    s := Next(p, 10, s, 0x00000000, 0x243185be, 0x4798a3f4, 0x436b23e8);
    s := Next(p, 11, s, 0x00000000, 0x550c7dc3, 0xf71fc5a9, 0x816fd6e9);
    s := Next(p, 12, s, 0x00000000, 0x72be5d74, 0x87912990, 0x1e578218);
    s := Next(p, 13, s, 0x00000000, 0x80deb1fe, 0xd932eb16, 0x745a48de);
    s := Next(p, 14, s, 0x00000000, 0x9bdc06a7, 0xc0645fde, 0x0b92f20c);
    s := Next(p, 15, s, 0x00000018, 0xc19bf174, 0xb0fa238e, 0x07590dcd);
  }

  lemma Steps2(p: seq<bv8>)
    requires p == Padded(Abc())
    ensures State(p, 24, Words(0xc5d53d8d, 0xa7a3623f, 0xc2606d6d, 0x9dc68b63, 0xaa47c347, 0x49f5114a, 0xe1257970, 0x8ada8930))
  {
    hide State, Word, Constant, Padded;
    Steps1(p);
    Words4(p);
    Words5(p);
    Values2();
    var s := Words(0xb0fa238e, 0xc0645fde, 0xd932eb16, 0x87912990, 0x07590dcd, 0x0b92f20c, 0x745a48de, 0x1e578218);
    s := Next(p, 16, s, 0x61626380, 0xe49b69c1, 0x21da9a9b, 0x8034229c);
    s := Next(p, 17, s, 0x000f0000, 0xefbe4786, 0xc2fbd9d1, 0x846ee454);
    s := Next(p, 18, s, 0x7da86405, 0x0fc19dc6, 0xfe777bbf, 0xcc899961);
    s := Next(p, 19, s, 0x600003c6, 0x240ca1cc, 0xe1f20c33, 0xb0638179);
    s := Next(p, 20, s, 0x3e9d7b78, 0x2de92c6f, 0x9dc68b63, 0x8ada8930);
    s := Next(p, 21, s, 0x0183fc00, 0x4a7484aa, 0xc2606d6d, 0xe1257970);
    s := Next(p, 22, s, 0x12dcbfdb, 0x5cb0a9dc, 0xa7a3623f, 0x49f5114a);
    s := Next(p, 23, s, 0xe2e2c38e, 0x76f988da, 0xc5d53d8d, 0xaa47c347);
  }

  lemma Steps3(p: seq<bv8>)
    requires p == Padded(Abc())
    ensures State(p, 32, Words(0x73b33bf5, 0xea992a22, 0xa0060b30, 0x363482c9, 0xba591112, 0x0109ab3a, 0xade79437, 0x6112a3b7))
  {
    hide State, Word, Constant, Padded;
    Steps2(p);
    Words6(p);
    Words7(p);
    Values3();
    var s := Words(0xc5d53d8d, 0xa7a3623f, 0xc2606d6d, 0x9dc68b63, 0xaa47c347, 0x49f5114a, 0xe1257970, 0x8ada8930);
    s := Next(p, 24, s, 0xc8215c1a, 0x983e5152, 0x1c2c2838, 0x2823ef91);
    s := Next(p, 25, s, 0xb73679a2, 0xa831c66d, 0xcde8037d, 0x14383d8e);
    s := Next(p, 26, s, 0xe5bc3909, 0xb00327c8, 0xb62ec4bc, 0xc74c6516);
    s := Next(p, 27, s, 0x32663c5b, 0xbf597fc7, 0x77d37528, 0xedffbff8);
    s := Next(p, 28, s, 0x9d209d67, 0xc6e00bf3, 0x363482c9, 0x6112a3b7);
    s := Next(p, 29, s, 0xec8726cb, 0xd5a79147, 0xa0060b30, 0xade79437);
    s := Next(p, 30, s, 0x702138a4, 0x06ca6351, 0xea992a22, 0x0109ab3a);
    s := Next(p, 31, s, 0xd3b7973b, 0x14292967, 0x73b33bf5, 0xba591112);
  }

  lemma Steps4(p: seq<bv8>)
    requires p == Padded(Abc())
    ensures State(p, 40, Words(0x79ea687a, 0x6dc57a8a, 0x34df1604, 0x41a65cb1, 0x1efbc0a0, 0xf0781bc8, 0xa507a53d, 0x0772a26b))
  {
    hide State, Word, Constant, Padded;
    Steps3(p);
    Words8(p);
    Words9(p);
    Values4();
    var s := Words(0x73b33bf5, 0xea992a22, 0xa0060b30, 0x363482c9, 0xba591112, 0x0109ab3a, 0xade79437, 0x6112a3b7);
    s := Next(p, 32, s, 0x93f5997f, 0x27b70a85, 0x98e12507, 0x9cd9f5f6);
    s := Next(p, 33, s, 0x3b68ba73, 0x2e1b2138, 0xfe604df5, 0x59249dd3);
    s := Next(p, 34, s, 0xaff4ffc1, 0x4d2c6dfc, 0xa9a7738c, 0x085f3833);
    s := Next(p, 35, s, 0xf10a5c62, 0x53380d13, 0x65a0cfe4, 0xf4b002d6);
    s := Next(p, 36, s, 0x0a8b3996, 0x650a7354, 0x41a65cb1, 0x0772a26b);
    s := Next(p, 37, s, 0x72af830a, 0x766a0abb, 0x34df1604, 0xa507a53d);
    s := Next(p, 38, s, 0x9409e33e, 0x81c2c92e, 0x6dc57a8a, 0xf0781bc8);
    s := Next(p, 39, s, 0x24641522, 0x92722c85, 0x79ea687a, 0x1efbc0a0);
  }

  lemma Steps5(p: seq<bv8>)
    requires p == Padded(Abc())
    ensures State(p, 48, Words(0x4172328d, 0xa14c14b0, 0x72ab4b91, 0x26628815, 0xfecf0bc6, 0xd57b94a9, 0xb7755da1, 0xa80f11f0))
  {
    hide State, Word, Constant, Padded;
    Steps4(p);
    Words10(p);
    Words11(p);
    Values5();
    var s := Words(0x79ea687a, 0x6dc57a8a, 0x34df1604, 0x41a65cb1, 0x1efbc0a0, 0xf0781bc8, 0xa507a53d, 0x0772a26b);
    s := Next(p, 40, s, 0x9f47bf94, 0xa2bfe8a1, 0xd6670766, 0x26352d63);
    s := Next(p, 41, s, 0xf0a64f5a, 0xa81a664b, 0xdf46652f, 0x838b2711);
    s := Next(p, 42, s, 0x3e246a79, 0xc24b8b70, 0x17aa0dfe, 0xdecd4715);
    s := Next(p, 43, s, 0x27333ba3, 0xc76c51a3, 0x9d4baf93, 0xfda24c2e);
    s := Next(p, 44, s, 0x0c4763f2, 0xd192e819, 0x26628815, 0xa80f11f0);
    s := Next(p, 45, s, 0x840abf27, 0xd6990624, 0x72ab4b91, 0xb7755da1);
    s := Next(p, 46, s, 0x7a290d5d, 0xf40e3585, 0xa14c14b0, 0xd57b94a9);
    s := Next(p, 47, s, 0x065c43da, 0x106aa070, 0x4172328d, 0xfecf0bc6);
  }

  lemma Steps6(p: seq<bv8>)
    requires p == Padded(Abc())
    ensures State(p, 56, Words(0x38cc9913, 0x3ec45cdb, 0xf5702fdb, 0x101fd28f, 0x54cb266b, 0xe50e1b4f, 0x9f4787c3, 0x529e7d00))
  {
    hide State, Word, Constant, Padded;
    Steps5(p);
    Words12(p);
    Words13(p);
    Values6();
    var s := Words(0x4172328d, 0xa14c14b0, 0x72ab4b91, 0x26628815, 0xfecf0bc6, 0xd57b94a9, 0xb7755da1, 0xa80f11f0);
    s := Next(p, 48, s, 0xfb3e89cb, 0x19a4c116, 0x05757ceb, 0xbd714038);
    s := Next(p, 49, s, 0xcc7617db, 0x1e376c08, 0xf11bfaa8, 0x6e5c390c);
    s := Next(p, 50, s, 0xb9e66c34, 0x2748774c, 0x7a0508a1, 0x52f1ccf7);
    s := Next(p, 51, s, 0xa9993667, 0x34b0bcb5, 0x886e7a22, 0x49231c1e);
    s := Next(p, 52, s, 0x84badedd, 0x391c0cb3, 0x101fd28f, 0x529e7d00);
    s := Next(p, 53, s, 0xc21462bc, 0x4ed8aa4a, 0xf5702fdb, 0x9f4787c3);
    s := Next(p, 54, s, 0x1487472c, 0x5b9cca4f, 0x3ec45cdb, 0xe50e1b4f);
    s := Next(p, 55, s, 0xb20f7a99, 0x682e6ff3, 0x38cc9913, 0x54cb266b);
  }

  lemma Steps7(p: seq<bv8>)
    requires p == Padded(Abc())
    ensures State(p, 64, Words(0x506e3058, 0xd39a2165, 0x04d24d6c, 0xb85e2ce9, 0x5ef50f24, 0xfb121210, 0x948d25b6, 0x961f4894))
  {
    hide State, Word, Constant, Padded;
    Steps6(p);
    Words14(p);
    Words15(p);
    Values7();
    var s := Words(0x38cc9913, 0x3ec45cdb, 0xf5702fdb, 0x101fd28f, 0x54cb266b, 0xe50e1b4f, 0x9f4787c3, 0x529e7d00);
    s := Next(p, 56, s, 0xef57b9cd, 0x748f82ee, 0xfcd1887b, 0x9b5e906c);
    s := Next(p, 57, s, 0xebe6b238, 0x78a5636f, 0xc062d46f, 0x7e44008e);
    s := Next(p, 58, s, 0x9fe3095e, 0x84c87814, 0xffb70472, 0x6d83bfc6);
    s := Next(p, 59, s, 0x78bc8d4b, 0x8cc70208, 0xb6ae8fff, 0xb21bad3d);
    s := Next(p, 60, s, 0xa43fcf15, 0x90befffa, 0xb85e2ce9, 0x961f4894);
    s := Next(p, 61, s, 0x668b2ff8, 0xa4506ceb, 0x04d24d6c, 0x948d25b6);
    s := Next(p, 62, s, 0xeeaba2cc, 0xbef9a3f7, 0xd39a2165, 0xfb121210);
    s := Next(p, 63, s, 0x12b1edeb, 0xc67178f2, 0x506e3058, 0x5ef50f24);
  }

  lemma StartState(p: seq<bv8>)
    requires p == Padded(Abc())
    ensures State(p, 0, INITIAL)
  {
    AbcByte(0);
    AfterStep(INITIAL, p, 0);
  }

  /** The digest of the three bytes. */
  lemma HashOfAbc()
    ensures Hash(Abc()) == [0xba, 0x78, 0x16, 0xbf, 0x8f, 0x01, 0xcf, 0xea, 0x41, 0x41, 0x40, 0xde, 0x5d, 0xae, 0x22, 0x23,
                            0xb0, 0x03, 0x61, 0xa3, 0x96, 0x17, 0x7a, 0x9c, 0xb4, 0x10, 0xff, 0x61, 0xf2, 0x00, 0x15, 0xad]
  {
    hide Padded, After, Digest, Added, WordByte, FourBytes, Compress;
    AbcByte(0);
    var p := Padded(Abc());
    Steps7(p);
    FoldOne(INITIAL, p);
    AbcCompressed(p);
    DigestIs(Words(0xba7816bf, 0x8f01cfea, 0x414140de, 0x5dae2223, 0xb00361a3, 0x96177a9c, 0xb410ff61, 0xf20015ad));
    AbcBytes();
  }

  lemma FoldOne(h: Words, block: seq<bv8>)
    requires |block| == 64
    ensures Fold(h, block) == Compress(h, block)
  {
    hide Compress;
    assert block[..64] == block && block[64..] == [];
  }

  lemma AbcCompressed(p: seq<bv8>)
    requires State(p, 64, Words(0x506e3058, 0xd39a2165, 0x04d24d6c, 0xb85e2ce9, 0x5ef50f24, 0xfb121210, 0x948d25b6, 0x961f4894))
    ensures |p| == 64 && Compress(INITIAL, p) == Words(0xba7816bf, 0x8f01cfea, 0x414140de, 0x5dae2223, 0xb00361a3, 0x96177a9c, 0xb410ff61, 0xf20015ad)
  {
    AbcSum();
    hide Added, After;
  }

  lemma AbcSum()
    ensures Added(INITIAL, Words(0x506e3058, 0xd39a2165, 0x04d24d6c, 0xb85e2ce9, 0x5ef50f24, 0xfb121210, 0x948d25b6, 0x961f4894)) == Words(0xba7816bf, 0x8f01cfea, 0x414140de, 0x5dae2223, 0xb00361a3, 0x96177a9c, 0xb410ff61, 0xf20015ad)
  {
  }

  function FourBytes(w: bv32): (s: seq<bv8>)
    ensures |s| == 4
  {
    [WordByte(w, 0), WordByte(w, 1), WordByte(w, 2), WordByte(w, 3)]
  }

  lemma DigestIs(s: Words)
    ensures Digest(s) == FourBytes(s.a) + FourBytes(s.b) + FourBytes(s.c) + FourBytes(s.d)
                         + FourBytes(s.e) + FourBytes(s.f) + FourBytes(s.g) + FourBytes(s.h)
  {
    hide WordByte, FourBytes, WordAt, Digest;
    var d := FourBytes(s.a) + FourBytes(s.b) + FourBytes(s.c) + FourBytes(s.d)
             + FourBytes(s.e) + FourBytes(s.f) + FourBytes(s.g) + FourBytes(s.h);
    forall n | 0 <= n < 32
      ensures Digest(s)[n] == d[n]
    {
      DigestByte(s, n);
      EightFours(FourBytes(s.a), FourBytes(s.b), FourBytes(s.c), FourBytes(s.d), FourBytes(s.e), FourBytes(s.f), FourBytes(s.g), FourBytes(s.h), n);
      WordsAt(s);
    }
  }

  lemma DigestByte(s: Words, n: nat)
    requires n < 32
    ensures Digest(s)[n] == FourBytes(WordAt(s, n / 4))[n % 4]
  {
    hide WordByte, WordAt;
  }

  lemma WordsAt(s: Words)
    ensures WordAt(s, 0) == s.a && WordAt(s, 1) == s.b && WordAt(s, 2) == s.c && WordAt(s, 3) == s.d
    ensures WordAt(s, 4) == s.e && WordAt(s, 5) == s.f && WordAt(s, 6) == s.g && WordAt(s, 7) == s.h
  {
  }

  lemma EightFours(a: seq<bv8>, b: seq<bv8>, c: seq<bv8>, d: seq<bv8>, e: seq<bv8>, f: seq<bv8>, g: seq<bv8>, h: seq<bv8>, n: nat)
    requires n < 32 && |a| == |b| == |c| == |d| == |e| == |f| == |g| == |h| == 4
    ensures var x := n / 4;
            (a + b + c + d + e + f + g + h)[n] ==
            (if x == 0 then a else if x == 1 then b else if x == 2 then c else if x == 3 then d
             else if x == 4 then e else if x == 5 then f else if x == 6 then g else h)[n % 4]
  {
  }

  lemma AbcBytes()
    ensures FourBytes(0xba7816bf) == [0xba, 0x78, 0x16, 0xbf]
    ensures FourBytes(0x8f01cfea) == [0x8f, 0x01, 0xcf, 0xea]
    ensures FourBytes(0x414140de) == [0x41, 0x41, 0x40, 0xde]
    ensures FourBytes(0x5dae2223) == [0x5d, 0xae, 0x22, 0x23]
    ensures FourBytes(0xb00361a3) == [0xb0, 0x03, 0x61, 0xa3]
    ensures FourBytes(0x96177a9c) == [0x96, 0x17, 0x7a, 0x9c]
    ensures FourBytes(0xb410ff61) == [0xb4, 0x10, 0xff, 0x61]
    ensures FourBytes(0xf20015ad) == [0xf2, 0x00, 0x15, 0xad]
  {
  }
}
