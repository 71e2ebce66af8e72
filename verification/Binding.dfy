// Binding a digest into a PE/COFF loader: the bytes after a unique marker are
// replaced, once, by the digest of what the loader is to start.

module Binding {
  import opened Words
  import opened Bytes

  // What distinguishes the two binders: the marker, the placeholder (width
  // copies of a fill byte) and the machine of the loader.
  datatype Profile = Profile(marker: seq<u8>, fill: u8, width: nat, machine: u16)

  datatype Error =
    | NotPortableExecutable
    | InvalidHeaderOffset
    | NoSignature
    | WrongMachine
    | NotOneMarker
    | Truncated
    | BoundElsewhere

  datatype Result<+T> = Ok(value: T) | Err(error: Error)

  // "++CONFIG_B2SUM_SIGNATURE++" and 128 ASCII zeros, on x86_64.
  const LIMINE := Profile(
    [0x2B, 0x2B, 0x43, 0x4F, 0x4E, 0x46, 0x49, 0x47, 0x5F, 0x42, 0x32, 0x53, 0x55, 0x4D, 0x5F, 0x53, 0x49, 0x47, 0x4E,
     0x41, 0x54, 0x55, 0x52, 0x45, 0x2B, 0x2B], 0x30, 128, 0x8664)

  // "NARF_KERNEL_BLAKE2B=" and 64 bytes 0xA5, on aarch64.
  const AARCH64 := Profile(
    [0x4E, 0x41, 0x52, 0x46, 0x5F, 0x4B, 0x45, 0x52, 0x4E, 0x45, 0x4C, 0x5F, 0x42, 0x4C, 0x41, 0x4B, 0x45, 0x32, 0x42,
     0x3D], 0xA5, 64, 0xAA64)

  // The machine field of a PE/COFF image.
  function PeMachine(image: seq<u8>): Result<u16> {
    if |image| < 64 || image[..2] != [0x4D, 0x5A] then Err(NotPortableExecutable)
    else
      var at := U32At(image, 60);
      if at > 1024 * 1024 || at + 6 > |image| then Err(InvalidHeaderOffset)
      else if image[at..at + 4] != [0x50, 0x45, 0, 0] then Err(NoSignature)
      else Ok(U16At(image, at + 4))
  }

  predicate OccursAt(s: seq<u8>, m: seq<u8>, i: nat) {
    i + |m| <= |s| && s[i..i + |m|] == m
  }

  // The first occurrence at or after a position.
  function Find(s: seq<u8>, m: seq<u8>, from: nat): (r: Option<nat>)
    ensures r.Some? ==> from <= r.value && OccursAt(s, m, r.value)
    decreases |s| - from
  {
    if from + |m| > |s| then None
    else if OccursAt(s, m, from) then Some(from)
    else if from == |s| then None
    else Find(s, m, from + 1)
  }

  // Non-overlapping occurrences from a position on, left to right.
  function Count(s: seq<u8>, m: seq<u8>, from: nat): nat
    requires m != []
    decreases |s| - from
  {
    match Find(s, m, from)
    case None => 0
    case Some(i) => 1 + Count(s, m, i + |m|)
  }

  function Splice(s: seq<u8>, at: nat, part: seq<u8>): seq<u8>
    requires at + |part| <= |s|
  {
    s[..at] + part + s[at + |part|..]
  }

  function Placeholder(p: Profile): seq<u8> {
    seq(p.width, _ => p.fill)
  }

  // Binds a digest, given the marker's position.
  function BindAt(p: Profile, loader: seq<u8>, digest: seq<u8>, at: nat): Result<seq<u8>>
    requires at <= |loader|
  {
    if at + p.width > |loader| || p.width != |digest| then Err(Truncated)
    else
      var embedded := loader[at..at + p.width];
      if embedded == digest then Ok(loader)
      else if embedded != Placeholder(p) then Err(BoundElsewhere)
      else Ok(Splice(loader, at, digest))
  }

  function Bind(p: Profile, loader: seq<u8>, digest: seq<u8>): Result<seq<u8>>
    requires p.marker != []
  {
    var machine := PeMachine(loader);
    if machine.Err? then Err(machine.error)
    else if machine.value != p.machine then Err(WrongMachine)
    else
      var found := Find(loader, p.marker, 0);
      if found == None || Count(loader, p.marker, 0) != 1 then Err(NotOneMarker)
      else BindAt(p, loader, digest, found.value + |p.marker|)
  }

  // The fill byte is none of the header bytes, and as the top byte of a header
  // offset it puts the header out of reach.
  predicate Sound(p: Profile) {
    && p.marker != [] && p.width >= 64
    && p.fill != 0 && p.fill != 0x50 && p.fill != 0x45
    && p.fill != p.machine % 0x100 && p.fill != p.machine / 0x100
  }

  // The bytes spell a text.
  ghost predicate Spells(bytes: seq<u8>, text: string) {
    |bytes| == |text| && forall i :: 0 <= i < |bytes| ==> bytes[i] == text[i] as int
  }

  // The two profiles in the words of the scripts.
  lemma ProfilesAre()
    ensures Spells(LIMINE.marker, "++CONFIG_B2SUM_SIGNATURE++")
    ensures LIMINE.fill == '0' as int && LIMINE.width == 128 && LIMINE.machine == 0x8664
    ensures Spells(AARCH64.marker, "NARF_KERNEL_BLAKE2B=")
    ensures AARCH64.fill == 0xA5 && AARCH64.width == 64 && AARCH64.machine == 0xAA64
  {
  }

  lemma ProfilesSound()
    ensures Sound(LIMINE) && Sound(AARCH64)
  {
  }

  // ---- Searching ----

  ghost predicate NoneIn(s: seq<u8>, m: seq<u8>, lo: nat, hi: nat) {
    forall i :: lo <= i < hi ==> !OccursAt(s, m, i)
  }

  ghost predicate NoneFrom(s: seq<u8>, m: seq<u8>, lo: nat) {
    forall i :: lo <= i ==> !OccursAt(s, m, i)
  }

  lemma {:induction false} FindNone(s: seq<u8>, m: seq<u8>, from: nat)
    requires m != []
    ensures Find(s, m, from) == None <==> NoneFrom(s, m, from)
    decreases |s| - from
  {
    if from + |m| <= |s| {
      FindNone(s, m, from + 1);
    }
  }

  lemma {:induction false} FindFirst(s: seq<u8>, m: seq<u8>, from: nat, i: nat)
    requires m != []
    ensures Find(s, m, from) == Some(i) <==> from <= i && OccursAt(s, m, i) && NoneIn(s, m, from, i)
    decreases |s| - from
  {
    if from + |m| <= |s| {
      FindFirst(s, m, from + 1, i);
    }
  }

  // The marker occurs once, without overlaps, and first at i.
  predicate Single(s: seq<u8>, m: seq<u8>, i: nat) {
    m != [] && Count(s, m, 0) == 1 && Find(s, m, 0) == Some(i)
  }

  ghost predicate Alone(s: seq<u8>, m: seq<u8>, i: nat) {
    OccursAt(s, m, i) && NoneIn(s, m, 0, i) && NoneFrom(s, m, i + |m|)
  }

  lemma CountStep(s: seq<u8>, m: seq<u8>, from: nat)
    requires m != []
    ensures Count(s, m, from) ==
      match Find(s, m, from) case None => 0 case Some(i) => 1 + Count(s, m, i + |m|)
  {
  }

  lemma SingleMeans(s: seq<u8>, m: seq<u8>, i: nat)
    requires m != []
    ensures Single(s, m, i) <==> Find(s, m, 0) == Some(i) && Find(s, m, i + |m|) == None
  {
    CountStep(s, m, 0);
    CountStep(s, m, i + |m|);
  }

  lemma SingleIsAlone(s: seq<u8>, m: seq<u8>, i: nat)
    requires m != []
    ensures Single(s, m, i) <==> Alone(s, m, i)
  {
    SingleMeans(s, m, i);
    FindFirst(s, m, 0, i);
    FindNone(s, m, i + |m|);
  }

  // ---- Splicing ----

  lemma SpliceAt(s: seq<u8>, at: nat, part: seq<u8>, j: nat)
    requires at + |part| <= |s| && j < |s|
    ensures |Splice(s, at, part)| == |s|
    ensures Splice(s, at, part)[j] == if at <= j < at + |part| then part[j - at] else s[j]
  {
  }

  lemma SpliceKeeps(s: seq<u8>, at: nat, part: seq<u8>, m: seq<u8>, i: nat)
    requires at + |part| <= |s|
    requires i + |m| <= at || at + |part| <= i
    ensures OccursAt(Splice(s, at, part), m, i) <==> OccursAt(s, m, i)
  {
    var t := Splice(s, at, part);
    if i + |m| <= |s| {
      forall q | i <= q < i + |m|
        ensures t[q] == s[q]
      {
        SpliceAt(s, at, part, q);
      }
      assert t[i..i + |m|] == s[i..i + |m|];
    }
  }

  // The bytes in which a splice could complete a marker: the digest and the
  // bytes after it, one fewer than the marker is long.
  function Seam(s: seq<u8>, at: nat, part: seq<u8>, m: seq<u8>): seq<u8>
    requires at + |part| <= |s| && m != []
  {
    part + s[at + |part|..Min(at + |part| + |m| - 1, |s|)]
  }

  lemma SeamIsSlice(s: seq<u8>, at: nat, part: seq<u8>, m: seq<u8>)
    requires at + |part| <= |s| && m != []
    ensures var t, seam := Splice(s, at, part), Seam(s, at, part, m);
      |t| == |s| && |seam| == Min(|part| + |m| - 1, |s| - at) && t[at..at + |seam|] == seam
  {
    var t, seam := Splice(s, at, part), Seam(s, at, part, m);
    forall j | 0 <= j < |seam|
      ensures t[at..at + |seam|][j] == seam[j]
    {
      SpliceAt(s, at, part, at + j);
    }
  }

  lemma OccursInSlice(t: seq<u8>, lo: nat, hi: nat, m: seq<u8>, k: nat)
    requires lo <= hi <= |t| && lo + k + |m| <= hi
    ensures OccursAt(t[lo..hi], m, k) <==> OccursAt(t, m, lo + k)
  {
    var inner, outer := t[lo..hi][k..k + |m|], t[lo + k..lo + k + |m|];
    forall j | 0 <= j < |m|
      ensures inner[j] == outer[j]
    {
      assert inner[j] == t[lo..hi][k + j];
    }
    assert inner == outer;
  }

  lemma SeamOccurs(s: seq<u8>, at: nat, part: seq<u8>, m: seq<u8>, k: nat)
    requires at + |part| <= |s| && m != [] && k < |part|
    ensures OccursAt(Splice(s, at, part), m, at + k) <==> OccursAt(Seam(s, at, part, m), m, k)
  {
    SeamIsSlice(s, at, part, m);
    if at + k + |m| <= |s| {
      OccursInSlice(Splice(s, at, part), at, at + |Seam(s, at, part, m)|, m, k);
    }
  }

  lemma SpliceAlone(s: seq<u8>, m: seq<u8>, i: nat, part: seq<u8>)
    requires m != [] && Alone(s, m, i) && i + |m| + |part| <= |s|
    ensures Alone(Splice(s, i + |m|, part), m, i) <==> NoneFrom(Seam(s, i + |m|, part, m), m, 0)
  {
    var at := i + |m|;
    var t, seam := Splice(s, at, part), Seam(s, at, part, m);
    forall j: nat | j <= i || at + |part| <= j
      ensures OccursAt(t, m, j) <==> OccursAt(s, m, j)
    {
      SpliceKeeps(s, at, part, m, j);
    }
    forall k: nat | k < |part|
      ensures OccursAt(t, m, at + k) <==> OccursAt(seam, m, k)
    {
      SeamOccurs(s, at, part, m, k);
    }
    if NoneFrom(seam, m, 0) {
      forall j: nat | at <= j
        ensures !OccursAt(t, m, j)
      {
        if j < at + |part| {
          assert !OccursAt(seam, m, j - at);
        }
      }
    } else {
      var k: nat :| OccursAt(seam, m, k);
      assert OccursAt(t, m, at + k);
    }
  }

  // A splice right after the single marker leaves it single exactly when no
  // marker lies in the seam.
  lemma SpliceSingle(s: seq<u8>, m: seq<u8>, i: nat, part: seq<u8>)
    requires Single(s, m, i) && i + |m| + |part| <= |s|
    ensures Single(Splice(s, i + |m|, part), m, i) <==> Find(Seam(s, i + |m|, part, m), m, 0) == None
  {
    SingleIsAlone(s, m, i);
    SpliceAlone(s, m, i, part);
    SingleIsAlone(Splice(s, i + |m|, part), m, i);
    FindNone(Seam(s, i + |m|, part, m), m, 0);
  }

  lemma SpliceKeepsFirst(s: seq<u8>, m: seq<u8>, i: nat, part: seq<u8>, t: seq<u8>)
    requires i + |m| + |part| <= |s| && OccursAt(s, m, i) && NoneIn(s, m, 0, i) && t == Splice(s, i + |m|, part)
    ensures OccursAt(t, m, i) && NoneIn(t, m, 0, i)
  {
    forall j: nat | j <= i
      ensures OccursAt(t, m, j) <==> OccursAt(s, m, j)
    {
      SpliceKeeps(s, i + |m|, part, m, j);
    }
  }

  // The marker before a splice is still the first.
  lemma SpliceFirst(s: seq<u8>, m: seq<u8>, i: nat, part: seq<u8>, t: seq<u8>)
    requires Single(s, m, i) && i + |m| + |part| <= |s| && t == Splice(s, i + |m|, part)
    ensures Find(t, m, 0) == Some(i)
  {
    FindFirst(s, m, 0, i);
    SpliceKeepsFirst(s, m, i, part, t);
    FindFirst(t, m, 0, i);
  }

  // ---- The header ----

  ghost predicate Filled(s: seq<u8>, at: nat, width: nat, fill: u8) {
    at + width <= |s| && forall j :: at <= j < at + width ==> s[j] == fill
  }

  predicate Inside(q: nat, at: nat, width: nat) {
    at <= q < at + width
  }

  // The placeholder of an accepted loader touches neither the DOS header nor
  // the signature nor the machine.
  lemma PlaceholderMissesHeader(p: Profile, loader: seq<u8>, at: nat)
    requires Sound(p) && PeMachine(loader) == Ok(p.machine) && Filled(loader, at, p.width, p.fill)
    ensures at >= 64
    ensures var header := U32At(loader, 60); header + 6 <= at || at + p.width <= header
  {
    assert loader[63] != p.fill;
    var header := U32At(loader, 60);
    assert loader[header..header + 4] == [0x50, 0x45, 0, 0];
    forall q | header <= q < header + 6
      ensures !Inside(q, at, p.width)
    {
      if q < header + 4 {
        assert loader[q] == loader[header..header + 4][q - header];
      }
      assert loader[q] != p.fill;
    }
    assert !Inside(header, at, p.width);
    assert Inside(at, at, p.width);
  }

  lemma SpliceKeepsMachine(p: Profile, loader: seq<u8>, at: nat, digest: seq<u8>)
    requires PeMachine(loader) == Ok(p.machine) && at + |digest| <= |loader| && at >= 64
    requires var header := U32At(loader, 60); header + 6 <= at || at + |digest| <= header
    ensures PeMachine(Splice(loader, at, digest)) == PeMachine(loader)
  {
    var t, header := Splice(loader, at, digest), U32At(loader, 60);
    assert t[..2] == loader[..2];
    assert t[60] == loader[60] && t[61] == loader[61] && t[62] == loader[62] && t[63] == loader[63];
    forall q | header <= q < header + 6
      ensures t[q] == loader[q]
    {
      SpliceAt(loader, at, digest, q);
    }
    assert t[header..header + 4] == loader[header..header + 4];
    assert t[header + 4] == loader[header + 4] && t[header + 5] == loader[header + 5];
  }

  // ---- Binding ----

  // The loader is of the profile's machine, has its marker at i only, and
  // carries a digest right after it.
  predicate Carries(p: Profile, loader: seq<u8>, i: nat, digest: seq<u8>) {
    && PeMachine(loader) == Ok(p.machine)
    && Single(loader, p.marker, i)
    && |digest| == p.width
    && OccursAt(loader, digest, i + |p.marker|)
  }

  predicate Bindable(p: Profile, loader: seq<u8>, i: nat, digest: seq<u8>) {
    |digest| == p.width && (Carries(p, loader, i, digest) || Carries(p, loader, i, Placeholder(p)))
  }

  // On a bindable loader the result is the loader with the digest after the
  // marker.
  lemma BindIsSplice(p: Profile, loader: seq<u8>, digest: seq<u8>, i: nat)
    requires Bindable(p, loader, i, digest)
    ensures Bind(p, loader, digest) == Ok(Splice(loader, i + |p.marker|, digest))
  {
    SpliceSame(loader, i + |p.marker|, digest);
  }

  lemma BindFindsMarker(p: Profile, loader: seq<u8>, digest: seq<u8>) returns (i: nat)
    requires p.marker != [] && Bind(p, loader, digest).Ok?
    ensures Bindable(p, loader, i, digest)
  {
    i := Find(loader, p.marker, 0).value;
  }

  // Binding succeeds exactly on loaders that carry the digest or the
  // placeholder.
  lemma BindSucceeds(p: Profile, loader: seq<u8>, digest: seq<u8>)
    requires p.marker != []
    ensures Bind(p, loader, digest).Ok? <==> exists i :: Bindable(p, loader, i, digest)
  {
    if i :| Bindable(p, loader, i, digest) {
      BindIsSplice(p, loader, digest, i);
    }
    if Bind(p, loader, digest).Ok? {
      var i := BindFindsMarker(p, loader, digest);
    }
  }

  // Where an image says its PE header is.
  function HeaderOffset(image: seq<u8>): nat
    requires |image| >= 64
  {
    image[60] as int + 0x100 * image[61] as int + 0x1_0000 * image[62] as int + 0x100_0000 * image[63] as int
  }

  // How far an image gets as a PE/COFF image: a DOS header, a header offset in
  // its first mebibyte with room for the signature and the machine, and both.
  ghost predicate HasDosHeader(image: seq<u8>) {
    |image| >= 64 && image[0] == 0x4D && image[1] == 0x5A
  }

  ghost predicate HasHeaderRoom(image: seq<u8>) {
    HasDosHeader(image) && HeaderOffset(image) <= 0x10_0000 && HeaderOffset(image) + 6 <= |image|
  }

  ghost predicate HasSignature(image: seq<u8>) {
    && HasHeaderRoom(image)
    && var at := HeaderOffset(image);
       image[at] == 0x50 && image[at + 1] == 0x45 && image[at + 2] == 0 && image[at + 3] == 0
  }

  ghost predicate HasMachine(image: seq<u8>, machine: u16) {
    && HasSignature(image)
    && var at := HeaderOffset(image); image[at + 4] as int + 0x100 * image[at + 5] as int == machine
  }

  lemma MachineMeans(image: seq<u8>, machine: u16)
    ensures PeMachine(image) == Err(NotPortableExecutable) <==> !HasDosHeader(image)
    ensures PeMachine(image) == Err(InvalidHeaderOffset) <==> HasDosHeader(image) && !HasHeaderRoom(image)
    ensures PeMachine(image) == Err(NoSignature) <==> HasHeaderRoom(image) && !HasSignature(image)
    ensures PeMachine(image) == Ok(machine) <==> HasMachine(image, machine)
  {
    if HasHeaderRoom(image) {
      var at := HeaderOffset(image);
      assert image[at..at + 4] == [image[at], image[at + 1], image[at + 2], image[at + 3]];
    }
  }

  // The digest would go right after a lone marker, and there is room for it.
  ghost predicate HasRoom(p: Profile, loader: seq<u8>, digest: seq<u8>, i: nat) {
    |digest| == p.width && i + |p.marker| + |digest| <= |loader|
  }

  // Every refusal, exactly: the first of the tests that fails.
  lemma BindRefusals(p: Profile, loader: seq<u8>, digest: seq<u8>, i: nat)
    requires p.marker != []
    ensures var r, machine := Bind(p, loader, digest), HasMachine(loader, p.machine);
            && (r == Err(NotPortableExecutable) <==> !HasDosHeader(loader))
            && (r == Err(InvalidHeaderOffset) <==> HasDosHeader(loader) && !HasHeaderRoom(loader))
            && (r == Err(NoSignature) <==> HasHeaderRoom(loader) && !HasSignature(loader))
            && (r == Err(WrongMachine) <==> HasSignature(loader) && !machine)
            && (r == Err(NotOneMarker) <==> machine && forall j: nat :: !Alone(loader, p.marker, j))
            && (machine && Alone(loader, p.marker, i) ==>
                  && (r == Err(Truncated) <==> !HasRoom(p, loader, digest, i))
                  && (r == Err(BoundElsewhere) <==>
                        && HasRoom(p, loader, digest, i)
                        && !OccursAt(loader, digest, i + |p.marker|)
                        && !Filled(loader, i + |p.marker|, p.width, p.fill)))
  {
    MachineMeans(loader, p.machine);
    if HasMachine(loader, p.machine) {
      NoLoneMarker(p, loader, digest);
      if Alone(loader, p.marker, i) {
        BindAtMarker(p, loader, digest, i);
      }
    }
  }

  lemma NoLoneMarker(p: Profile, loader: seq<u8>, digest: seq<u8>)
    requires p.marker != [] && PeMachine(loader) == Ok(p.machine)
    ensures Bind(p, loader, digest) == Err(NotOneMarker) <==> forall j: nat :: !Alone(loader, p.marker, j)
  {
    forall j: nat
      ensures Single(loader, p.marker, j) <==> Alone(loader, p.marker, j)
    {
      SingleIsAlone(loader, p.marker, j);
    }
    var found := Find(loader, p.marker, 0);
    if found.Some? && Count(loader, p.marker, 0) == 1 {
      assert Single(loader, p.marker, found.value);
    }
  }

  lemma BindAtMarker(p: Profile, loader: seq<u8>, digest: seq<u8>, i: nat)
    requires p.marker != [] && PeMachine(loader) == Ok(p.machine) && Alone(loader, p.marker, i)
    ensures var r := Bind(p, loader, digest);
            && (r == Err(Truncated) <==> !HasRoom(p, loader, digest, i))
            && (r == Err(BoundElsewhere) <==>
                  && HasRoom(p, loader, digest, i)
                  && !OccursAt(loader, digest, i + |p.marker|)
                  && !Filled(loader, i + |p.marker|, p.width, p.fill))
  {
    SingleIsAlone(loader, p.marker, i);
    assert Bind(p, loader, digest) == BindAt(p, loader, digest, i + |p.marker|);
    if HasRoom(p, loader, digest, i) {
      FilledIff(p, loader, i + |p.marker|);
    }
  }

  lemma FilledIff(p: Profile, s: seq<u8>, at: nat)
    requires at + p.width <= |s|
    ensures s[at..at + p.width] == Placeholder(p) <==> Filled(s, at, p.width, p.fill)
  {
    if s[at..at + p.width] == Placeholder(p) {
      forall k | at <= k < at + p.width
        ensures s[k] == p.fill
      {
        assert s[k] == s[at..at + p.width][k - at] == Placeholder(p)[k - at];
      }
    }
  }

  lemma SpliceSame(s: seq<u8>, at: nat, part: seq<u8>)
    requires at + |part| <= |s|
    ensures OccursAt(Splice(s, at, part), part, at)
    ensures OccursAt(s, part, at) ==> Splice(s, at, part) == s
  {
  }

  // A successful bind keeps the machine, the length and every byte but the
  // digest's.
  lemma BindChangesDigestOnly(p: Profile, loader: seq<u8>, digest: seq<u8>, i: nat, bound: seq<u8>)
    requires Sound(p) && Bindable(p, loader, i, digest) && Bind(p, loader, digest) == Ok(bound)
    ensures |bound| == |loader| && PeMachine(bound) == PeMachine(loader)
    ensures forall q :: 0 <= q < |loader| && !Inside(q, i + |p.marker|, p.width) ==> bound[q] == loader[q]
  {
    BindIsSplice(p, loader, digest, i);
    BoundMachine(p, loader, digest, i);
    forall q | 0 <= q < |loader| && !Inside(q, i + |p.marker|, p.width)
      ensures bound[q] == loader[q]
    {
      SpliceAt(loader, i + |p.marker|, digest, q);
    }
  }

  lemma FillingKeepsMachine(p: Profile, loader: seq<u8>, digest: seq<u8>, at: nat)
    requires Sound(p) && PeMachine(loader) == Ok(p.machine)
    requires OccursAt(loader, Placeholder(p), at) && |digest| == p.width
    ensures PeMachine(Splice(loader, at, digest)) == PeMachine(loader)
  {
    FilledIff(p, loader, at);
    PlaceholderMissesHeader(p, loader, at);
    SpliceKeepsMachine(p, loader, at, digest);
  }

  lemma BoundMachine(p: Profile, loader: seq<u8>, digest: seq<u8>, i: nat)
    requires Sound(p) && Bindable(p, loader, i, digest)
    ensures PeMachine(Splice(loader, i + |p.marker|, digest)) == PeMachine(loader)
  {
    if Carries(p, loader, i, digest) {
      SpliceSame(loader, i + |p.marker|, digest);
    } else {
      FillingKeepsMachine(p, loader, digest, i + |p.marker|);
    }
  }

  // No marker lies in the digest and the bytes that follow it.
  predicate CleanSeam(p: Profile, loader: seq<u8>, i: nat, digest: seq<u8>)
    requires p.marker != []
  {
    var at := i + |p.marker|;
    at + |digest| <= |loader| && Find(Seam(loader, at, digest, p.marker), p.marker, 0) == None
  }

  lemma SpliceOccurs(s: seq<u8>, at: nat, part: seq<u8>)
    requires at + |part| <= |s|
    ensures OccursAt(Splice(s, at, part), part, at)
  {
  }

  lemma BindableMeans(p: Profile, loader: seq<u8>, i: nat, digest: seq<u8>)
    requires Bindable(p, loader, i, digest)
    ensures PeMachine(loader) == Ok(p.machine) && Single(loader, p.marker, i)
    ensures |digest| == p.width && i + |p.marker| + |digest| <= |loader|
  {
  }

  lemma CarriesIffSingle(p: Profile, bound: seq<u8>, i: nat, digest: seq<u8>)
    requires PeMachine(bound) == Ok(p.machine) && |digest| == p.width && OccursAt(bound, digest, i + |p.marker|)
    ensures Carries(p, bound, i, digest) <==> Single(bound, p.marker, i)
  {
  }

  lemma SpliceCarries(p: Profile, loader: seq<u8>, digest: seq<u8>, i: nat, bound: seq<u8>)
    requires Sound(p) && Bindable(p, loader, i, digest) && bound == Splice(loader, i + |p.marker|, digest)
    ensures Carries(p, bound, i, digest) <==> CleanSeam(p, loader, i, digest)
  {
    BindableMeans(p, loader, i, digest);
    BoundMachine(p, loader, digest, i);
    SpliceOccurs(loader, i + |p.marker|, digest);
    CarriesIffSingle(p, bound, i, digest);
    SpliceSingle(loader, p.marker, i, digest);
  }

  // The bound loader carries its digest exactly when the seam is clean.
  lemma BoundCarries(p: Profile, loader: seq<u8>, digest: seq<u8>, i: nat, bound: seq<u8>)
    requires Sound(p) && Bindable(p, loader, i, digest) && Bind(p, loader, digest) == Ok(bound)
    ensures Carries(p, bound, i, digest) <==> CleanSeam(p, loader, i, digest)
  {
    BindIsSplice(p, loader, digest, i);
    SpliceCarries(p, loader, digest, i, bound);
  }

  lemma RefusesUnlessOne(p: Profile, loader: seq<u8>, digest: seq<u8>)
    requires p.marker != [] && PeMachine(loader) == Ok(p.machine) && Count(loader, p.marker, 0) != 1
    ensures Bind(p, loader, digest) == Err(NotOneMarker)
  {
  }

  lemma SecondMarker(s: seq<u8>, m: seq<u8>, i: nat, part: seq<u8>, t: seq<u8>)
    requires Single(s, m, i) && i + |m| + |part| <= |s| && t == Splice(s, i + |m|, part)
    requires Find(Seam(s, i + |m|, part, m), m, 0) != None
    ensures Count(t, m, 0) != 1
  {
    SpliceFirst(s, m, i, part, t);
    SpliceSingle(s, m, i, part);
  }

  // Rebinding the same digest is the identity exactly when the seam is clean;
  // otherwise the second bind finds a second marker.
  lemma RebindIsIdentity(p: Profile, loader: seq<u8>, digest: seq<u8>, i: nat, bound: seq<u8>)
    requires Sound(p) && Bindable(p, loader, i, digest) && Bind(p, loader, digest) == Ok(bound)
    ensures Bind(p, bound, digest) == if CleanSeam(p, loader, i, digest) then Ok(bound) else Err(NotOneMarker)
  {
    BindIsSplice(p, loader, digest, i);
    if CleanSeam(p, loader, i, digest) {
      SpliceCarries(p, loader, digest, i, bound);
      RebindCarried(p, bound, digest, i);
    } else {
      SecondMarker(loader, p.marker, i, digest, bound);
      BoundMachine(p, loader, digest, i);
      RefusesUnlessOne(p, bound, digest);
    }
  }

  // A bound loader takes no other digest, unless the first was the placeholder.
  lemma OtherDigestRefused(p: Profile, bound: seq<u8>, digest: seq<u8>, other: seq<u8>, i: nat)
    requires Carries(p, bound, i, digest) && |other| == p.width && other != digest
    ensures Bind(p, bound, other) ==
      if digest != Placeholder(p) then Err(BoundElsewhere) else Ok(Splice(bound, i + |p.marker|, other))
  {
    var at := i + |p.marker|;
    assert Bind(p, bound, other) == BindAt(p, bound, other, at);
    assert bound[at..at + p.width] == digest;
  }

  // ---- The Limine binder ----

  predicate IsLowerHex(c: u8) {
    0x30 <= c <= 0x39 || 0x61 <= c <= 0x66
  }

  predicate IsHexDigest(digest: seq<u8>) {
    |digest| == LIMINE.width && forall j :: 0 <= j < |digest| ==> IsLowerHex(digest[j])
  }

  // A hex digest never completes a marker: markers start with '+'.
  lemma HexSeamIsClean(loader: seq<u8>, i: nat, digest: seq<u8>)
    requires IsHexDigest(digest) && i + |LIMINE.marker| + |digest| <= |loader|
    ensures CleanSeam(LIMINE, loader, i, digest)
  {
    var seam := Seam(loader, i + |LIMINE.marker|, digest, LIMINE.marker);
    FindNone(seam, LIMINE.marker, 0);
    forall k: nat
      ensures !OccursAt(seam, LIMINE.marker, k)
    {
      if k + |LIMINE.marker| <= |seam| {
        assert IsLowerHex(digest[k]);
        assert seam[k..k + |LIMINE.marker|][0] == digest[k];
      }
    }
  }

  // Binding a Limine configuration: a success changes the 128 digest bytes
  // only, keeps the machine and the single marker; rebinding the same
  // configuration is the identity and another one is refused, unless the first
  // digest was the placeholder.
  lemma LimineBinding(loader: seq<u8>, digest: seq<u8>, other: seq<u8>)
    requires IsHexDigest(digest) && IsHexDigest(other) && other != digest
    requires Bind(LIMINE, loader, digest).Ok?
    ensures Find(loader, LIMINE.marker, 0).Some?
    ensures var bound, i := Bind(LIMINE, loader, digest).value, Find(loader, LIMINE.marker, 0).value;
      && |bound| == |loader|
      && (forall q :: 0 <= q < |loader| && !Inside(q, i + |LIMINE.marker|, LIMINE.width) ==> bound[q] == loader[q])
      && PeMachine(bound) == PeMachine(loader)
      && Count(bound, LIMINE.marker, 0) == 1
      && Bind(LIMINE, bound, digest) == Ok(bound)
      && (Bind(LIMINE, bound, other) == Err(BoundElsewhere) <==> digest != Placeholder(LIMINE))
  {
    ProfilesSound();
    var i := BindFindsMarker(LIMINE, loader, digest);
    var bound := Bind(LIMINE, loader, digest).value;
    HexSeamIsClean(loader, i, digest);
    BindChangesDigestOnly(LIMINE, loader, digest, i, bound);
    BoundCarries(LIMINE, loader, digest, i, bound);
    RebindIsIdentity(LIMINE, loader, digest, i, bound);
    OtherDigestRefused(LIMINE, bound, digest, other, i);
  }

  // ---- The aarch64 binder ----

  // Binding a kernel digest: the same header result; rebinding is the identity
  // exactly when no marker lies in the digest and the 19 bytes after it, and
  // then another kernel is refused unless the first digest was the placeholder.
  lemma Aarch64Binding(loader: seq<u8>, digest: seq<u8>, other: seq<u8>, bound: seq<u8>)
    requires |digest| == AARCH64.width && |other| == AARCH64.width && other != digest
    requires Bind(AARCH64, loader, digest) == Ok(bound)
    ensures Find(loader, AARCH64.marker, 0).Some?
    ensures var i := Find(loader, AARCH64.marker, 0).value;
      && |bound| == |loader|
      && (forall q :: 0 <= q < |loader| && !Inside(q, i + |AARCH64.marker|, AARCH64.width) ==> bound[q] == loader[q])
      && PeMachine(bound) == PeMachine(loader)
      && Bind(AARCH64, bound, digest) ==
         (if CleanSeam(AARCH64, loader, i, digest) then Ok(bound) else Err(NotOneMarker))
      && (CleanSeam(AARCH64, loader, i, digest) ==>
        (Bind(AARCH64, bound, other) == Err(BoundElsewhere) <==> digest != Placeholder(AARCH64)))
  {
    ProfilesSound();
    var i := BindFindsMarker(AARCH64, loader, digest);
    BindChangesDigestOnly(AARCH64, loader, digest, i, bound);
    RebindIsIdentity(AARCH64, loader, digest, i, bound);
    BoundCarries(AARCH64, loader, digest, i, bound);
    if CleanSeam(AARCH64, loader, i, digest) {
      OtherDigestRefused(AARCH64, bound, digest, other, i);
    }
  }

  // The smallest loader: the header at 64, the marker at 70, the placeholder.
  function SmallLoader(): seq<u8> {
    [0x4D, 0x5A] + seq(58, _ => 0) + [0x40, 0, 0, 0] + [0x50, 0x45, 0, 0, 0x64, 0xAA]
    + AARCH64.marker + Placeholder(AARCH64)
  }

  lemma SmallLoaderMachine()
    ensures PeMachine(SmallLoader()) == Ok(AARCH64.machine)
  {
    var loader := SmallLoader();
    assert loader[..2] == [0x4D, 0x5A];
    assert loader[60] == 0x40 && loader[61] == 0 && loader[62] == 0 && loader[63] == 0;
    assert loader[64..68] == [0x50, 0x45, 0, 0];
    assert loader[68] == 0x64 && loader[69] == 0xAA;
  }

  lemma SmallLoaderSingle()
    ensures Single(SmallLoader(), AARCH64.marker, 70)
  {
    var loader := SmallLoader();
    assert loader[70..90] == AARCH64.marker;
    forall i: nat | i < 70 || 90 <= i
      ensures !OccursAt(loader, AARCH64.marker, i)
    {
      if i + 20 <= |loader| {
        assert loader[i..i + 20][0] == loader[i] != 0x4E;
      }
    }
    SingleIsAlone(loader, AARCH64.marker, 70);
  }

  lemma SmallLoaderCarries()
    ensures Carries(AARCH64, SmallLoader(), 70, Placeholder(AARCH64))
  {
    SmallLoaderMachine();
    SmallLoaderSingle();
    assert SmallLoader()[90..154] == Placeholder(AARCH64);
  }

  // A digest that holds the marker binds once and is then refused.
  lemma MarkerInDigest(loader: seq<u8>, digest: seq<u8>, i: nat, k: nat, bound: seq<u8>)
    requires Bindable(AARCH64, loader, i, digest) && Bind(AARCH64, loader, digest) == Ok(bound)
    requires OccursAt(digest, AARCH64.marker, k)
    ensures Bind(AARCH64, bound, digest) == Err(NotOneMarker)
  {
    ProfilesSound();
    var seam := Seam(loader, i + |AARCH64.marker|, digest, AARCH64.marker);
    assert OccursAt(seam, AARCH64.marker, k) by {
      assert seam[k..k + |AARCH64.marker|] == digest[k..k + |AARCH64.marker|];
    }
    FindNone(seam, AARCH64.marker, 0);
    RebindIsIdentity(AARCH64, loader, digest, i, bound);
  }

  // So rebinding is not the identity for every digest.
  lemma RebindCanFail() returns (loader: seq<u8>, digest: seq<u8>, bound: seq<u8>)
    ensures |digest| == AARCH64.width
    ensures Bind(AARCH64, loader, digest) == Ok(bound) && Bind(AARCH64, bound, digest) == Err(NotOneMarker)
  {
    loader := SmallLoader();
    digest := AARCH64.marker + seq(44, _ => 0);
    SmallLoaderCarries();
    bound := Splice(loader, 90, digest);
    BindIsSplice(AARCH64, loader, digest, 70);
    assert digest[0..20] == AARCH64.marker;
    MarkerInDigest(loader, digest, 70, 0, bound);
  }

  // ---- Runs of binds ----

  // Binding one digest after another.
  function BindAll(p: Profile, loader: seq<u8>, digests: seq<seq<u8>>): Result<seq<u8>>
    requires p.marker != []
    decreases |digests|
  {
    if digests == [] then Ok(loader)
    else
      var first := Bind(p, loader, digests[0]);
      if first.Err? then first else BindAll(p, first.value, digests[1..])
  }

  predicate AllAre(digests: seq<seq<u8>>, digest: seq<u8>) {
    digests == [] || (digests[0] == digest && AllAre(digests[1..], digest))
  }

  predicate AllWide(p: Profile, digests: seq<seq<u8>>) {
    digests == [] || (|digests[0]| == p.width && AllWide(p, digests[1..]))
  }

  lemma RebindCarried(p: Profile, bound: seq<u8>, digest: seq<u8>, i: nat)
    requires Carries(p, bound, i, digest)
    ensures Bind(p, bound, digest) == Ok(bound)
  {
    BindIsSplice(p, bound, digest, i);
    SpliceSame(bound, i + |p.marker|, digest);
  }

  // Once a loader carries a digest other than the placeholder, every run of
  // binds keeps it as it is, or is refused as soon as another digest comes.
  lemma {:induction false} BoundForever(p: Profile, bound: seq<u8>, digest: seq<u8>, i: nat, digests: seq<seq<u8>>)
    requires p.marker != [] && Carries(p, bound, i, digest) && digest != Placeholder(p) && AllWide(p, digests)
    ensures BindAll(p, bound, digests) == if AllAre(digests, digest) then Ok(bound) else Err(BoundElsewhere)
    decreases |digests|
  {
    if digests != [] {
      if digests[0] == digest {
        RebindCarried(p, bound, digest, i);
        BoundForever(p, bound, digest, i, digests[1..]);
      } else {
        OtherDigestRefused(p, bound, digest, digests[0], i);
      }
    }
  }
}
