// What the router answers and which registers it leaves, in terms of the ranges
// the version registers announce.

module IoApicAnswers {
  import opened Words
  import opened Bits
  import opened IoApicRoutes
  import opened MmioWindows
  import opened IoApic
  import opened IoApicCalls

  // The chip announces the GSI: its range starts at its base, has one GSI for
  // each redirection entry up to the largest, and stays within 32 bits.
  predicate Announces(files: RegisterFiles, io: Reported, gsi: int)
    requires Present(files, io)
  {
    var largest := And(Shr(files[io.address][1], 16), 0xFF);
    io.gsiBase <= gsi <= io.gsiBase + largest <= 0xFFFF_FFFF
  }

  lemma CoversIffAnnounced(files: RegisterFiles, io: Reported, gsi: int)
    requires Present(files, io)
    ensures Covers(files, io, gsi) <==> Announces(files, io, gsi)
  {
    MaxEntryIsMasked(files[io.address][1]);
  }

  // Chip k announces the GSI and no chip before it does.
  ghost predicate FirstToAnnounce(files: RegisterFiles, ios: seq<Reported>, k: nat, gsi: int)
    requires AllPresent(files, ios)
  {
    k < |ios| && Announces(files, ios[k], gsi) && forall j :: 0 <= j < k ==> !Announces(files, ios[j], gsi)
  }

  lemma {:induction false} OwnerAnnounces(files: RegisterFiles, ios: seq<Reported>, i: nat, gsi: int)
    requires AllPresent(files, ios) && i <= |ios| && forall j :: 0 <= j < i ==> !Announces(files, ios[j], gsi)
    ensures var k := Owner(files, ios, i, gsi);
            if k < |ios| then FirstToAnnounce(files, ios, k, gsi)
            else forall j :: 0 <= j < |ios| ==> !Announces(files, ios[j], gsi)
    decreases |ios| - i
  {
    if i < |ios| {
      CoversIffAnnounced(files, ios[i], gsi);
      if !Covers(files, ios[i], gsi) {
        OwnerAnnounces(files, ios, i + 1, gsi);
      }
    }
  }

  ghost predicate SomeAnnounces(files: RegisterFiles, ios: seq<Reported>, gsi: int)
    requires AllPresent(files, ios)
  {
    exists k :: 0 <= k < |ios| && Announces(files, ios[k], gsi)
  }

  // The routing map has exactly the announced GSIs.
  lemma RoutesAreAnnounced(files: RegisterFiles, ios: seq<Reported>, gsi: int)
    requires AllPresent(files, ios)
    ensures gsi in Routes(files, ios) <==> SomeAnnounces(files, ios, gsi)
  {
    OwnerAnnounces(files, ios, 0, gsi);
  }

  // With mappings that succeed and page-aligned chips, a call is served exactly
  // for the announced GSIs.
  lemma AnnouncedIsServed(env: Env, s: State, ios: seq<Reported>, call: Call)
    requires Routable(s.files, ios) && Ready(env.mapper, s.cache, AddressSet(ios))
    ensures var answer := Act(env, s, ios, call).1;
            if call.Read? then answer.Found? && (answer.reading.Some? <==> SomeAnnounces(s.files, ios, call.gsi))
            else answer == Done(SomeAnnounces(s.files, ios, call.gsi))
  {
    CallRefines(env, s, ios, call);
    RoutesAreAnnounced(s.files, ios, call.gsi);
  }

  // Nothing but two registers of one chip may differ.
  ghost predicate SameExcept(files: RegisterFiles, after: RegisterFiles, at: u64, index: int) {
    && files.Keys == after.Keys
    && (forall other :: other in files && other != at ==> after[other] == files[other])
    && (at in files ==>
          && |after[at]| == |files[at]|
          && forall r :: 0 <= r < |files[at]| && r != index && r != index + 1 ==> after[at][r] == files[at][r])
  }

  lemma OwnerIsFirst(files: RegisterFiles, ios: seq<Reported>, k: nat, gsi: int)
    requires AllPresent(files, ios) && FirstToAnnounce(files, ios, k, gsi)
    ensures Owner(files, ios, 0, gsi) == k && Covers(files, ios[k], gsi)
  {
    OwnerAnnounces(files, ios, 0, gsi);
    CoversIffAnnounced(files, ios[k], gsi);
  }

  // The two words of entry n are registers 0x10 + 2 n and the next. Routing
  // leaves the vector and bits 12 to 16 of the flags in the first, and the
  // destination in the top byte of the second.
  lemma RoutedRegisters(env: Env, s: State, ios: seq<Reported>, call: Call, k: nat, b: nat)
    requires Routable(s.files, ios) && Ready(env.mapper, s.cache, AddressSet(ios))
    requires call.Route? && FirstToAnnounce(s.files, ios, k, call.gsi)
    ensures var (t, at, index) := (Act(env, s, ios, call).0, ios[k].address, 0x10 + 2 * (call.gsi - ios[k].gsiBase));
            && SameExcept(s.files, t.files, at, index) && index + 1 < |t.files[at]|
            && (Bit(t.files[at][index], b) <==> Bit(call.vector, b) || (12 <= b <= 16 && Bit(call.flags, b)))
            && t.files[at][index + 1] == Shl(call.destination, 24)
  {
    OwnerIsFirst(s.files, ios, k, call.gsi);
    ReadyEffect(env, s, ios, call, k);
    BothStored(s.files, ios[k], call.gsi, ProgrammedEntry(call.vector, call.destination, call.flags));
    BitOfProgrammedLow(call.vector, call.flags, b);
    HighIsShifted(call.destination);
  }

  // Masking changes bit 16 of the first word and nothing else.
  lemma MaskedRegisters(env: Env, s: State, ios: seq<Reported>, call: Call, k: nat, b: nat)
    requires Routable(s.files, ios) && Ready(env.mapper, s.cache, AddressSet(ios))
    requires call.SetMask? && FirstToAnnounce(s.files, ios, k, call.gsi)
    ensures var (t, at, index) := (Act(env, s, ios, call).0, ios[k].address, 0x10 + 2 * (call.gsi - ios[k].gsiBase));
            && SameExcept(s.files, t.files, at, index) && index + 1 < |t.files[at]|
            && (Bit(t.files[at][index], b) <==> if b == 16 then call.masked else Bit(s.files[at][index], b))
            && t.files[at][index + 1] == s.files[at][index + 1]
  {
    OwnerIsFirst(s.files, ios, k, call.gsi);
    ReadyEffect(env, s, ios, call, k);
    BothMasked(s.files, env.floating, ios[k], call.gsi, call.masked);
    BitOfMaskedLow(s.files[ios[k].address][LowIndex(ios[k], call.gsi)], call.masked, b);
  }

  // Reading reports the bytes of the two words.
  lemma ReadRegisters(env: Env, s: State, ios: seq<Reported>, call: Call, k: nat)
    requires Routable(s.files, ios) && Ready(env.mapper, s.cache, AddressSet(ios))
    requires call.Read? && FirstToAnnounce(s.files, ios, k, call.gsi)
    ensures var (at, index) := (ios[k].address, 0x10 + 2 * (call.gsi - ios[k].gsiBase));
            && index + 1 < |s.files[at]|
            && Act(env, s, ios, call).0.files == s.files
            && Act(env, s, ios, call).1 ==
               Found(Some(Reading(s.files[at][index] % 0x100, s.files[at][index + 1] / 0x100_0000, s.files[at][index])))
  {
    OwnerIsFirst(s.files, ios, k, call.gsi);
    ReadyEffect(env, s, ios, call, k);
  }
}
