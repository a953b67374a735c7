/** Known-answer values from run_tests in main.c for the plaintext
    0x0123456789ABCDEF and the key 0x133457799BBCDFF1: the permutations, the
    first key-schedule step, all sixteen round keys and the final permutation
    of the sixteenth-round output. */
module DesVectors {
  import opened Permutations
  import opened KeySchedule
  import opened Des

  const Plaintext: bv64 := 0x0123_4567_89AB_CDEF
  const Key: bv64 := 0x1334_5779_9BBC_DFF1

  lemma InitialPermutationVector()
    ensures InitialPermutation(Plaintext) == 14699974583363760298
    ensures Split(InitialPermutation(Plaintext)) == Halves(3422604543, 4037734570)
  {
  }

  lemma PermutedChoice1Vector()
    ensures InitialRegister(Key) == Register(252496559, 89548687)
  {
  }

  lemma KeyShiftVector()
    ensures KeyShift(252496559, 1) == 236557663 && KeyShift(89548687, 1) == 179097374
    ensures RoundKey(Register(236557663, 179097374)) == 29699430183026
  {
  }

  lemma FinalPermutationVector()
    ensures Join(Halves(1128411700, 172808597)) == 742207273711055412
    ensures FinalPermutation(742207273711055412) == 9648983453391827973
  {
  }

  /** The rotations of generate_key_schedule on the halves of the test key. */
  lemma TestKeyShifts0()
    ensures KeyShift(252496559, 0) == 236557663 && KeyShift(89548687, 0) == 179097374
    ensures KeyShift(236557663, 1) == 204679871 && KeyShift(179097374, 1) == 89759293
    ensures KeyShift(204679871, 2) == 13413119 && KeyShift(89759293, 2) == 90601717
    ensures KeyShift(13413119, 3) == 53652476 && KeyShift(90601717, 3) == 93971413
  {
    KeyShiftRotates(252496559, 0);
    KeyShiftRotates(89548687, 0);
    KeyShiftRotates(236557663, 1);
    KeyShiftRotates(179097374, 1);
    KeyShiftRotates(204679871, 2);
    KeyShiftRotates(89759293, 2);
    KeyShiftRotates(13413119, 3);
    KeyShiftRotates(90601717, 3);
  }

  lemma TestKeyShifts1()
    ensures KeyShift(53652476, 4) == 214609904 && KeyShift(93971413, 4) == 107450197
    ensures KeyShift(214609904, 5) == 53133251 && KeyShift(107450197, 5) == 161365333
    ensures KeyShift(53133251, 6) == 212533004 && KeyShift(161365333, 6) == 108590422
    ensures KeyShift(212533004, 7) == 44825651 && KeyShift(108590422, 7) == 165926233
  {
    KeyShiftRotates(53652476, 4);
    KeyShiftRotates(93971413, 4);
    KeyShiftRotates(214609904, 5);
    KeyShiftRotates(107450197, 5);
    KeyShiftRotates(53133251, 6);
    KeyShiftRotates(161365333, 6);
    KeyShiftRotates(212533004, 7);
    KeyShiftRotates(108590422, 7);
  }

  lemma TestKeyShifts2()
    ensures KeyShift(44825651, 8) == 89651302 && KeyShift(165926233, 8) == 63417011
    ensures KeyShift(89651302, 9) == 90169753 && KeyShift(63417011, 9) == 253668044
    ensures KeyShift(90169753, 10) == 92243557 && KeyShift(253668044, 10) == 209365811
    ensures KeyShift(92243557, 11) == 100538773 && KeyShift(209365811, 11) == 32156879
  {
    KeyShiftRotates(44825651, 8);
    KeyShiftRotates(165926233, 8);
    KeyShiftRotates(89651302, 9);
    KeyShiftRotates(63417011, 9);
    KeyShiftRotates(90169753, 10);
    KeyShiftRotates(253668044, 10);
    KeyShiftRotates(92243557, 11);
    KeyShiftRotates(209365811, 11);
  }

  lemma TestKeyShifts3()
    ensures KeyShift(100538773, 12) == 133719637 && KeyShift(32156879, 12) == 128627516
    ensures KeyShift(133719637, 13) == 266443093 && KeyShift(128627516, 13) == 246074609
    ensures KeyShift(266443093, 14) == 260466007 && KeyShift(246074609, 14) == 178992071
    ensures KeyShift(260466007, 15) == 252496559 && KeyShift(178992071, 15) == 89548687
  {
    KeyShiftRotates(100538773, 12);
    KeyShiftRotates(32156879, 12);
    KeyShiftRotates(133719637, 13);
    KeyShiftRotates(128627516, 13);
    KeyShiftRotates(266443093, 14);
    KeyShiftRotates(246074609, 14);
    KeyShiftRotates(260466007, 15);
    KeyShiftRotates(178992071, 15);
  }


  /** One more pass of the loop of generate_key_schedule. */
  lemma RegisterStep(start: Register, n: nat, c: bv64, d: bv64)
    requires n < 16 && RegisterAfter(start, n) == Register(c, d)
    ensures RegisterAfter(start, n + 1) == Register(KeyShift(c, n), KeyShift(d, n))
  {
  }

  /** The register after each pass of the loop of generate_key_schedule for the test key. */
  lemma TestKeyRegisters(start: Register)
    requires start == Register(252496559, 89548687)
    ensures RegisterAfter(start, 1) == Register(236557663, 179097374)
    ensures RegisterAfter(start, 2) == Register(204679871, 89759293)
    ensures RegisterAfter(start, 3) == Register(13413119, 90601717)
    ensures RegisterAfter(start, 4) == Register(53652476, 93971413)
    ensures RegisterAfter(start, 5) == Register(214609904, 107450197)
    ensures RegisterAfter(start, 6) == Register(53133251, 161365333)
    ensures RegisterAfter(start, 7) == Register(212533004, 108590422)
    ensures RegisterAfter(start, 8) == Register(44825651, 165926233)
    ensures RegisterAfter(start, 9) == Register(89651302, 63417011)
    ensures RegisterAfter(start, 10) == Register(90169753, 253668044)
    ensures RegisterAfter(start, 11) == Register(92243557, 209365811)
    ensures RegisterAfter(start, 12) == Register(100538773, 32156879)
    ensures RegisterAfter(start, 13) == Register(133719637, 128627516)
    ensures RegisterAfter(start, 14) == Register(266443093, 246074609)
    ensures RegisterAfter(start, 15) == Register(260466007, 178992071)
    ensures RegisterAfter(start, 16) == Register(252496559, 89548687)
  {
    TestKeyShifts0();
    TestKeyShifts1();
    TestKeyShifts2();
    TestKeyShifts3();
    RegisterStep(start, 0, 252496559, 89548687);
    RegisterStep(start, 1, 236557663, 179097374);
    RegisterStep(start, 2, 204679871, 89759293);
    RegisterStep(start, 3, 13413119, 90601717);
    RegisterStep(start, 4, 53652476, 93971413);
    RegisterStep(start, 5, 214609904, 107450197);
    RegisterStep(start, 6, 53133251, 161365333);
    RegisterStep(start, 7, 212533004, 108590422);
    RegisterStep(start, 8, 44825651, 165926233);
    RegisterStep(start, 9, 89651302, 63417011);
    RegisterStep(start, 10, 90169753, 253668044);
    RegisterStep(start, 11, 92243557, 209365811);
    RegisterStep(start, 12, 100538773, 32156879);
    RegisterStep(start, 13, 133719637, 128627516);
    RegisterStep(start, 14, 266443093, 246074609);
    RegisterStep(start, 15, 260466007, 178992071);
  }

  /** pc_2 on the registers of the test key. */
  lemma TestRoundKeys0()
    ensures RoundKey(Register(236557663, 179097374)) == 29699430183026
    ensures RoundKey(Register(204679871, 89759293)) == 133791886330341
    ensures RoundKey(Register(13413119, 90601717)) == 94543139753881
    ensures RoundKey(Register(53652476, 93971413)) == 126090959598877
  {
  }

  lemma TestRoundKeys1()
    ensures RoundKey(Register(214609904, 107450197)) == 137353186988968
    ensures RoundKey(Register(53133251, 161365333)) == 109561366215471
    ensures RoundKey(Register(212533004, 108590422)) == 260054766196924
    ensures RoundKey(Register(44825651, 165926233)) == 272173063289851
  {
  }

  lemma TestRoundKeys2()
    ensures RoundKey(Register(89651302, 63417011)) == 247235160696705
    ensures RoundKey(Register(90169753, 253668044)) == 195658438559311
    ensures RoundKey(Register(92243557, 209365811)) == 36695460205446
    ensures RoundKey(Register(100538773, 32156879)) == 129132311898089
  {
  }

  lemma TestRoundKeys3()
    ensures RoundKey(Register(133719637, 128627516)) == 166875887221313
    ensures RoundKey(Register(266443093, 246074609)) == 104744453596986
    ensures RoundKey(Register(260466007, 178992071)) == 210631860764426
    ensures RoundKey(Register(252496559, 89548687)) == 223465186400245
  {
  }

  /** generate_key_schedule on the test key gives the round keys run_tests expects. */
  lemma ScheduleVector(key: bv64)
    requires key == Key
    ensures |Schedule(key)| == 16
    ensures Schedule(key)[0] == 29699430183026
    ensures Schedule(key)[1] == 133791886330341
    ensures Schedule(key)[2] == 94543139753881
    ensures Schedule(key)[3] == 126090959598877
    ensures Schedule(key)[4] == 137353186988968
    ensures Schedule(key)[5] == 109561366215471
    ensures Schedule(key)[6] == 260054766196924
    ensures Schedule(key)[7] == 272173063289851
    ensures Schedule(key)[8] == 247235160696705
    ensures Schedule(key)[9] == 195658438559311
    ensures Schedule(key)[10] == 36695460205446
    ensures Schedule(key)[11] == 129132311898089
    ensures Schedule(key)[12] == 166875887221313
    ensures Schedule(key)[13] == 104744453596986
    ensures Schedule(key)[14] == 210631860764426
    ensures Schedule(key)[15] == 223465186400245
  {
    PermutedChoice1Vector();
    TestKeyRegisters(InitialRegister(key));
    TestRoundKeys0();
    TestRoundKeys1();
    TestRoundKeys2();
    TestRoundKeys3();
  }
}
