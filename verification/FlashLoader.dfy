/** The boot loader's access to flash, block by block, and its tracker of what has been written but not verified. */
module FlashLoader {

  type Byte = x: int | 0 <= x < 0x100

  const ERASED: Byte := 0xFF

  const DEPLOY_KEY_COUNT := 2
  const RSA_BLOCK_SIZE_BYTES := 128

  /** Blocks of one size and one kind, side by side. */
  datatype Region = Region(start: nat, bytesPerBlock: nat, numBlocks: nat, kind: nat)

  function End(r: Region): nat {
    r.start + r.numBlocks * r.bytesPerBlock
  }

  /** The regions of a device follow each other. */
  ghost predicate RegionsOk(regions: seq<Region>) {
    && (forall i :: 0 <= i < |regions| ==> regions[i].bytesPerBlock > 0 && regions[i].numBlocks > 0)
    && forall i :: 0 <= i < |regions| - 1 ==> End(regions[i]) == regions[i + 1].start
  }

  function BlockAddress(r: Region, index: nat): nat {
    r.start + index * r.bytesPerBlock
  }

  /** The region of an address on the device, searched from region `i` on. */
  function RegionAt(regions: seq<Region>, i: nat, address: nat): nat
    decreases |regions| - i
  {
    if i + 1 >= |regions| || address < End(regions[i]) then i else RegionAt(regions, i + 1, address)
  }

  /** The addresses of one block. */
  ghost predicate InBlock(regions: seq<Region>, i: nat, b: nat, a: nat) {
    i < |regions| && b < regions[i].numBlocks && BlockAddress(regions[i], b) <= a < BlockAddress(regions[i], b) + regions[i].bytesPerBlock
  }

  /** Part of an access: some bytes of one block. */
  datatype Chunk = Chunk(address: nat, length: nat, region: nat, block: nat)

  ghost predicate ChunkOk(regions: seq<Region>, c: Chunk) {
    && InBlock(regions, c.region, c.block, c.address)
    && c.address + c.length <= BlockAddress(regions[c.region], c.block) + regions[c.region].bytesPerBlock
  }

  /** The chunks follow each other from `from` to `to`, each in one block. */
  ghost predicate Tiles(regions: seq<Region>, chunks: seq<Chunk>, from: nat, to: nat) {
    && (forall k :: 0 <= k < |chunks| ==> ChunkOk(regions, chunks[k]))
    && (forall k :: 0 <= k < |chunks| - 1 ==> chunks[k].address + chunks[k].length == chunks[k + 1].address)
    && if chunks == [] then from == to
       else chunks[0].address == from && chunks[|chunks| - 1].address + chunks[|chunks| - 1].length == to
  }

  lemma TilesMore(regions: seq<Region>, chunks: seq<Chunk>, from: nat, to: nat, c: Chunk)
    requires Tiles(regions, chunks, from, to) && ChunkOk(regions, c) && c.address == to
    ensures Tiles(regions, chunks + [c], from, to + c.length)
  {
  }

  /** Every byte of a tiled interval is in some chunk, and so in that chunk's block. */
  lemma {:induction false} Covered(regions: seq<Region>, chunks: seq<Chunk>, from: nat, to: nat, a: nat) returns (k: nat)
    requires Tiles(regions, chunks, from, to) && from <= a < to
    ensures k < |chunks| && chunks[k].address <= a < chunks[k].address + chunks[k].length
    ensures InBlock(regions, chunks[k].region, chunks[k].block, a)
    decreases |chunks|
  {
    var last := |chunks| - 1;
    if a >= chunks[last].address {
      k := last;
    } else {
      k := Covered(regions, chunks[..last], from, chunks[last].address, a);
    }
  }

  lemma NextBlock(r: Region, b: nat)
    ensures BlockAddress(r, b + 1) == BlockAddress(r, b) + r.bytesPerBlock
    ensures b == r.numBlocks ==> BlockAddress(r, b) == End(r)
    ensures BlockAddress(r, 0) == r.start
  {
  }

  lemma BlockBefore(r: Region, b: nat, c: nat)
    requires b <= c
    ensures BlockAddress(r, b) <= BlockAddress(r, c)
  {
  }

  datatype Mode = Read | Write | Erase

  /** How the hardware answers during one chunk: whether the block may be changed at all, whether its erasure and
      the operation itself succeed, and how many bytes get stored when a write fails. */
  datatype Answer = Answer(permitted: bool, erases: bool, works: bool, stored: nat)

  ghost predicate Reliable(device: nat -> Answer) {
    forall n :: device(n).permitted && device(n).erases && device(n).works
  }

  ghost predicate SameBlock(regions: seq<Region>, a: nat, x: nat) {
    exists i: nat, b: nat :: InBlock(regions, i, b, a) && InBlock(regions, i, b, x)
  }

  /** The address is in a block that the interval, or at least its start, touches. */
  ghost predicate Touched(regions: seq<Region>, a: nat, from: nat, to: nat) {
    exists x: nat :: from <= x && (x < to || x == from) && SameBlock(regions, a, x)
  }

  lemma BlockTouched(regions: seq<Region>, i: nat, b: nat, from: nat, to: nat)
    requires InBlock(regions, i, b, from)
    ensures forall a: nat :: InBlock(regions, i, b, a) ==> Touched(regions, a, from, to)
  {
    forall a: nat | InBlock(regions, i, b, a) ensures Touched(regions, a, from, to) {
      assert SameBlock(regions, a, from);
    }
  }

  /** What an access may have changed: bytes of the interval have been written, and blocks that it touches erased,
      but a write erases nothing in front of it. */
  ghost predicate Changed(mode: Mode, regions: seq<Region>, was: seq<Byte>, now: seq<Byte>, from: nat, to: nat) {
    && |now| == |was|
    && forall a :: 0 <= a < |now| && now[a] != was[a] ==>
         mode != Read && (mode == Write ==> from <= a)
         && ((now[a] == ERASED && Touched(regions, a, from, to)) || (mode == Write && a < to))
  }

  /** What an access of `from` to `to` has achieved when the hardware did its part. */
  ghost predicate Achieved(mode: Mode, regions: seq<Region>, chunks: seq<Chunk>, now: seq<Byte>, data: seq<Byte>, buf: seq<Byte>, from: nat, to: nat) {
    match mode
    case Read => from <= to <= |now| && buf == now[from..to]
    case Write => from <= to <= |now| && to - from <= |data| && now[from..to] == data[..to - from]
    case Erase => forall k, a :: 0 <= k < |chunks| && 0 <= a < |now| && InBlock(regions, chunks[k].region, chunks[k].block, a) ==> now[a] == ERASED
  }

  /** In the blocks that a write has begun to fill, all that it has not written is erased. */
  ghost predicate RestErased(regions: seq<Region>, chunks: seq<Chunk>, now: seq<Byte>, from: nat, to: nat) {
    forall k, a ::
      0 <= k < |chunks| && 0 <= a < |now| && Begins(regions, chunks[k]) && !(from <= a < to) && InBlock(regions, chunks[k].region, chunks[k].block, a)
      ==> now[a] == ERASED
  }

  /** The chunk begins where its block does. */
  ghost predicate Begins(regions: seq<Region>, c: Chunk) {
    c.region < |regions| && c.address == BlockAddress(regions[c.region], c.block)
  }

  /** What writing a chunk does beside it: a block written from its start is erased first, if it can be. */
  ghost predicate AroundWrite(regions: seq<Region>, c: Chunk, was: seq<Byte>, now: seq<Byte>, erases: bool) {
    && |now| == |was|
    && forall x :: 0 <= x < |now| && !(c.address <= x < c.address + c.length) ==>
         now[x] == if erases && Begins(regions, c) && InBlock(regions, c.region, c.block, x) then ERASED else was[x]
  }

  /** What accessing one chunk does. */
  ghost predicate Accessed(mode: Mode, regions: seq<Region>, c: Chunk, was: seq<Byte>, now: seq<Byte>, data: seq<Byte>, bytes: seq<Byte>,
                           a: Answer, ok: bool) {
    && Changed(mode, regions, was, now, c.address, c.address + c.length) && c.address + c.length <= |now| == |was|
    && (a.erases && a.works ==> ok)
    && (mode == Write ==> now[..c.address] == was[..c.address] && AroundWrite(regions, c, was, now, a.erases))
    && (ok ==> match mode
               case Read => bytes == now[c.address..c.address + c.length]
               case Write => now[c.address..c.address + c.length] == data
               case Erase => forall x :: 0 <= x < |now| && InBlock(regions, c.region, c.block, x) ==> now[x] == ERASED)
  }

  /** How far an access of `from` to `end` has come, and what it has achieved if the hardware did all that it was asked. */
  ghost predicate Progress(mode: Mode, regions: seq<Region>, was: seq<Byte>, now: seq<Byte>, chunks: seq<Chunk>, data: seq<Byte>, buf: seq<Byte>,
                           from: nat, to: nat, end: nat, reliable: bool) {
    && Changed(mode, regions, was, now, from, end) && Tiles(regions, chunks, from, to)
    && Achieved(mode, regions, chunks, now, data, buf, from, to)
    && (mode == Write && reliable ==> RestErased(regions, chunks, now, from, to))
  }

  /** `now` differs from `was` only by erased bytes, and within the interval. */
  ghost predicate Contained(was: seq<Byte>, now: seq<Byte>, from: nat, to: nat) {
    |now| == |was| && forall a :: 0 <= a < |now| && !(from <= a < to) ==> now[a] == was[a] || now[a] == ERASED
  }

  /** Nothing is left of what was written since `was`. */
  ghost predicate NothingLeft(was: seq<Byte>, now: seq<Byte>) {
    Contained(was, now, 0, 0)
  }

  /** What can be asked of the boot loader; `verifies` and `loads` are the answers of the signature check. */
  datatype Command =
    | ReadMemory(address: nat, length: nat)
    | WriteMemory(address: nat, data: seq<Byte>)
    | CheckMemory(address: nat, length: nat)
    | EraseMemory(address: nat, length: nat)
    | Execute(address: nat, program: bool)
    | CheckSignature(signature: seq<Byte>, keyIndex: nat, verifies: bool, loads: bool)

  /** Nothing is written to address 0, which the tracker takes for "nothing written". */
  predicate KeepsTrack(c: Command) {
    c.WriteMemory? && c.address == 0 ==> c.data == []
  }

  class LoaderEngine {
    const regions: seq<Region>
    const ramBase: nat
    const ramSize: nat
    const supportsXip: bool
    /** The contents of the flash device, by address. */
    var flash: seq<Byte>
    /** The written data that has not been verified. */
    var dataAddress: nat
    var dataLength: nat
    var sectorKind: nat
    var hasDevice: bool
    /** The flash when the tracker was last reset. */
    ghost var trusted: seq<Byte>

    ghost predicate Valid()
      reads this
    {
      RegionsOk(regions) && regions != [] && |flash| == End(regions[|regions| - 1])
    }

    predicate OnDevice(address: nat)
      reads this
      requires Valid()
    {
      regions[0].start <= address < |flash|
    }

    predicate InRam(address: nat, length: nat) {
      ramBase <= address < ramBase + ramSize && address + length <= ramBase + ramSize
    }

    constructor (regions: seq<Region>, ramBase: nat, ramSize: nat, supportsXip: bool, flash: seq<Byte>)
      requires RegionsOk(regions) && regions != [] && |flash| == End(regions[|regions| - 1])
      ensures Valid() && Sound() && !IsDirty() && !hasDevice && this.flash == flash == trusted
      ensures this.regions == regions && this.supportsXip == supportsXip
    {
      this.regions, this.ramBase, this.ramSize, this.supportsXip, this.flash := regions, ramBase, ramSize, supportsXip, flash;
      dataAddress, dataLength, sectorKind, hasDevice, trusted := 0, 0, 0, false, flash;
    }

    method EraseBlock(i: nat, b: nat, a: Answer) returns (ok: bool)
      requires Valid() && i < |regions| && b < regions[i].numBlocks
      modifies `flash
      ensures Valid() && ok == a.erases
      ensures |flash| == |old(flash)|
      ensures forall x :: 0 <= x < |flash| ==> flash[x] == if ok && InBlock(regions, i, b, x) then ERASED else old(flash)[x]
    {
      ok := a.erases;
      if ok {
        InDevice(regions, i, b);
        var from := BlockAddress(regions[i], b);
        var to := from + regions[i].bytesPerBlock;
        flash := flash[..from] + seq(to - from, k => ERASED) + flash[to..];
      }
    }

    method WriteBytes(address: nat, data: seq<Byte>, a: Answer) returns (ok: bool)
      requires Valid() && address + |data| <= |flash|
      modifies `flash
      ensures Valid() && ok == a.works && |flash| == |old(flash)|
      ensures forall x :: 0 <= x < |flash| && flash[x] != old(flash)[x] ==> address <= x < address + |data|
      ensures ok ==> flash[address..address + |data|] == data
    {
      ok := a.works;
      var n := if ok || a.stored > |data| then |data| else a.stored;
      flash := flash[..address] + data[..n] + flash[address + n..];
    }

    predicate IsBlockErased(from: nat, length: nat)
      reads this
    {
      from + length <= |flash| && forall a :: from <= a < from + length ==> flash[a] == ERASED
    }

    /** One chunk.  A block is erased before it is written from its start, whether or not that works. */
    method AccessBlock(mode: Mode, i: nat, b: nat, address: nat, data: seq<Byte>, length: nat, a: Answer)
        returns (ok: bool, bytes: seq<Byte>)
      requires Valid() && InBlock(regions, i, b, address) && address + length <= BlockAddress(regions[i], b) + regions[i].bytesPerBlock
      requires mode == Write ==> |data| == length
      modifies `flash
      ensures Valid() && |flash| == |old(flash)|
      ensures Accessed(mode, regions, Chunk(address, length, i, b), old(flash), flash, data, bytes, a, ok)
    {
      InDevice(regions, i, b);
      BlockTouched(regions, i, b, address, address + length);
      hide Touched;
      bytes := [];
      match mode
      case Read =>
        ok := supportsXip || a.works;
        if ok { bytes := flash[address..address + length]; }
      case Write =>
        var startBlock := BlockAddress(regions[i], b);
        if address == startBlock && !IsBlockErased(startBlock, regions[i].bytesPerBlock) {
          var _ := EraseBlock(i, b, a);
        }
        ok := WriteBytes(address, data, a);
      case Erase =>
        ok := EraseBlock(i, b, a);
    }

    /** The region and block of an address. */
    method FindRegionFromAddress(address: nat) returns (i: nat, b: nat)
      requires Valid() && OnDevice(address)
      ensures InBlock(regions, i, b, address) && i == RegionAt(regions, 0, address)
    {
      i := 0;
      while address >= End(regions[i])
        invariant i < |regions| && regions[i].start <= address && RegionAt(regions, 0, address) == RegionAt(regions, i, address)
        decreases |regions| - i
      {
        i := i + 1;
      }
      b := (address - regions[i].start) / regions[i].bytesPerBlock;
      Quotient(address - regions[i].start, regions[i].bytesPerBlock, regions[i].numBlocks);
    }

    /** Reads, writes or erases from `address` on, block by block.  Only a refused block makes the access fail:
        when the device itself fails the access just ends. */
    method AccessMemory(mode: Mode, address: nat, length: nat, data: seq<Byte>, device: nat -> Answer)
        returns (res: bool, buf: seq<Byte>, ghost chunks: seq<Chunk>, ghost to: nat)
      requires Valid() && (mode == Write ==> |data| == length)
      modifies `flash
      ensures Valid() && |flash| == |old(flash)|
      ensures !OnDevice(address) ==>
                flash == old(flash) && res == (ramBase <= address < ramBase + ramSize && address + length <= ramBase + ramSize)
      ensures OnDevice(address) ==> to <= address + length
                                    && Progress(mode, regions, old(flash), flash, chunks, data, buf, address, to, address + length, Reliable(device))
      ensures OnDevice(address) && Reliable(device) ==> res && to == if address + length < |flash| then address + length else |flash|
      ensures OnDevice(address) <==> regions[0].start <= address < |flash|
      ensures OnDevice(address) ==> Permitted(mode, regions, device, chunks, res, old(flash), flash, address, to, address + length)
    {
      hide InBlock, BlockAddress, End, Tiles, ChunkOk, RegionsOk, Changed, Reliable, Progress, Accessed, Underway, Permitted;
      res, buf, chunks, to := InRam(address, length), [], [], address;
      ghost var was, end: nat := flash, address + length;
      NothingYet(mode, regions, device, was, data, address, end);
      if !OnDevice(address) { return; }
      var iRegion: nat, blockIndex: nat := FindRegionFromAddress(address);
      BlockBounds(regions, iRegion, blockIndex, address);
      var accessAddress: nat, left: nat, n: nat := address, length, 0;
      var blockOffset: nat := address - BlockAddress(regions[iRegion], blockIndex);
      res := true;
      while iRegion < |regions|
        invariant Valid() && iRegion <= |regions| && |flash| == |was| && res
        invariant left > 0 || accessAddress == address
        invariant address <= accessAddress == to == end - left
        invariant iRegion < |regions| ==> At(regions[iRegion], blockIndex, blockOffset, to) && blockIndex < regions[iRegion].numBlocks
        invariant iRegion == |regions| ==> to == |flash|
        invariant n == |chunks| && Underway(mode, regions, device, was, flash, chunks, data, buf, address, to, end) && (chunks == [] ==> iRegion < |regions|)
        decreases |regions| - iRegion
      {
        var r := regions[iRegion];
        while blockIndex < r.numBlocks
          invariant Valid() && |flash| == |was| && res && blockIndex <= r.numBlocks
          invariant left > 0 || accessAddress == address
          invariant address <= accessAddress == to == end - left && At(r, blockIndex, blockOffset, to)
          invariant n == |chunks| && Underway(mode, regions, device, was, flash, chunks, data, buf, address, to, end) && (chunks == [] ==> blockIndex < r.numBlocks)
          decreases r.numBlocks - blockIndex
        {
          Offset(r, blockIndex, blockOffset, to);
          var max := r.bytesPerBlock - blockOffset;
          var numOfBytes: nat := if max < left then max else left;
          ghost var c, before := Chunk(accessAddress, numOfBytes, iRegion, blockIndex), flash;
          ChunkFits(regions, c, blockOffset);
          if mode != Read && !device(n).permitted {
            RefusedHere(mode, regions, device, was, flash, chunks, data, buf, address, to, end);
            res := false;
            return;
          }
          var part := if mode == Write then data[accessAddress - address..accessAddress - address + numOfBytes] else [];
          var success, bytes := AccessBlock(mode, iRegion, blockIndex, accessAddress, part, numOfBytes, device(n));
          if !success {
            EndsHere(mode, regions, device, was, before, flash, chunks, data, buf, part, bytes, address, to, end, c);
            return;
          }
          GoesOn(mode, regions, device, was, before, flash, chunks, data, buf, part, bytes, address, to, end, c);
          AtNext(r, blockIndex, blockOffset, to);
          chunks, n, to, buf := chunks + [c], n + 1, to + numOfBytes, buf + bytes;
          left, accessAddress := left - numOfBytes, accessAddress + numOfBytes;
          if left == 0 {
            EndsAll(mode, regions, device, was, flash, chunks, data, buf, address, to, end);
            return;
          }
          blockOffset := 0;
          blockIndex := blockIndex + 1;
        }
        AtEnd(regions, iRegion, blockIndex, blockOffset, to);
        iRegion := iRegion + 1;
        blockIndex := 0;
      }
      EndsAll(mode, regions, device, was, flash, chunks, data, buf, address, to, end);
    }

    // The tracker of written but unverified data.

    predicate IsDirty()
      reads this
    {
      dataAddress != 0 || dataLength != 0
    }

    /** Whatever was written since the last reset lies in the tracked interval, or has been erased. */
    ghost predicate Sound()
      requires Valid()
      reads this
    {
      && (dataAddress == 0 ==> dataLength == 0)
      && (dataAddress != 0 ==> hasDevice == OnDevice(dataAddress))
      && Contained(trusted, flash, dataAddress, if OnDevice(dataAddress) then dataAddress + dataLength else dataAddress)
    }

    method CheckDirty() returns (dirty: bool)
      ensures dirty == IsDirty()
    {
      dirty := dataAddress != 0 || dataLength != 0;
    }

    method Reset()
      requires Valid()
      modifies this
      ensures Valid() && Sound() && !IsDirty() && !hasDevice && flash == old(flash) == trusted
    {
      dataAddress, dataLength, hasDevice, trusted := 0, 0, false, flash;
    }

    /** Erases every block that unverified data touches. */
    method EraseMemoryAndReset(device: nat -> Answer)
      requires Valid()
      modifies this
      ensures Valid() && (old(Sound()) ==> Sound() && !IsDirty())
      ensures old(Sound()) && Reliable(device) ==> NothingLeft(old(trusted), flash)
      ensures old(dataAddress) == 0 ==> flash == old(flash) && dataAddress == 0 && dataLength == old(dataLength) && trusted == old(trusted)
    {
      if dataAddress != 0 {
        ghost var from, length, onDevice := dataAddress, dataLength, OnDevice(dataAddress);
        ghost var was, sound := flash, Sound();
        var _, _, chunks, to := AccessMemory(Erase, dataAddress, dataLength, [], device);
        if sound && Reliable(device) {
          if onDevice { ErasedAll(regions, chunks, trusted, was, flash, from, to, length); }
        }
        Reset();
      }
    }

    /** Where the tracked interval ends, in the same kind of sector. */
    ghost predicate Continues(address: nat)
      reads this
      requires Valid()
    {
      address == dataAddress + dataLength && OnDevice(address) == hasDevice && KindAt(address) == sectorKind
    }

    ghost function KindAt(address: nat): nat
      reads this
      requires Valid()
    {
      if !OnDevice(address) then 0 else var i := RegionAt(regions, 0, address); if i < |regions| then regions[i].kind else 0
    }

    /** A write has to continue the tracked interval, unless there is none. */
    method VerifyContiguousData(address: nat, length: nat) returns (ok: bool)
      requires Valid()
      modifies `dataAddress, `dataLength, `sectorKind, `hasDevice
      ensures Valid() && (ok <==> old(dataAddress) == 0 || old(Continues(address)))
      ensures !ok ==> unchanged(this)
      ensures ok ==> hasDevice == OnDevice(address) && sectorKind == KindAt(address)
      ensures ok && old(dataAddress) == 0 ==> dataAddress == address && dataLength == length
      ensures ok && old(dataAddress) != 0 ==> dataAddress == old(dataAddress) && dataLength == old(dataLength) + length && hasDevice == old(hasDevice)
    {
      var onDevice, kind := OnDevice(address), 0;
      if onDevice {
        var i, b := FindRegionFromAddress(address);
        kind := regions[i].kind;
      }
      if dataAddress == 0 {
        dataAddress, dataLength, hasDevice, sectorKind := address, length, onDevice, kind;
        return true;
      }
      if onDevice != hasDevice || kind != sectorKind || dataAddress + dataLength != address { return false; }
      dataLength := dataLength + length;
      return true;
    }

    /** Accepts the tracked data if its signature is right, and erases it if not. */
    method VerifySignature(signature: seq<Byte>, keyIndex: nat, verifies: (seq<Byte>, seq<Byte>, nat) -> bool, loads: bool, device: nat -> Answer)
        returns (ok: bool)
      requires Valid()
      modifies this
      ensures Valid() && (old(Sound()) ==> Sound() && !IsDirty())
      ensures ok <==> keyIndex < DEPLOY_KEY_COUNT && |signature| == RSA_BLOCK_SIZE_BYTES
                      && (old(hasDevice) ==> (supportsXip || loads) && verifies(old(Tracked()), signature, keyIndex))
      ensures ok && old(hasDevice) && old(dataAddress) + old(dataLength) <= |old(flash)| ==>
                verifies(old(flash)[old(dataAddress)..old(dataAddress) + old(dataLength)], signature, keyIndex)
      ensures ok ==> flash == old(flash) == trusted && !IsDirty()
      ensures !ok && old(Sound()) && Reliable(device) ==> NothingLeft(old(trusted), flash)
      ensures old(dataAddress) == 0 && !ok ==> flash == old(flash)
    {
      if keyIndex >= DEPLOY_KEY_COUNT || |signature| != RSA_BLOCK_SIZE_BYTES {
        EraseMemoryAndReset(device);
        return false;
      }
      if !hasDevice {
        Reset();
        return true;
      }
      if !supportsXip && !loads {
        EraseMemoryAndReset(device);
        return false;
      }
      ok := verifies(Tracked(), signature, keyIndex);
      if ok { Reset(); } else { EraseMemoryAndReset(device); }
    }

    /** The bytes that get verified. */
    function Tracked(): seq<Byte>
      reads this
    {
      if dataAddress + dataLength <= |flash| then flash[dataAddress..dataAddress + dataLength]
      else if dataAddress <= |flash| then flash[dataAddress..] else []
    }

    // The commands.  While unverified data is around, all but two of them erase it and fail.

    method GuardDirty(device: nat -> Answer) returns (clean: bool)
      requires Valid()
      modifies this
      ensures Valid() && clean == !old(IsDirty()) && (clean ==> unchanged(this))
      ensures old(Sound()) ==> Sound() && !IsDirty()
      ensures !clean && old(Sound()) && Reliable(device) ==> NothingLeft(old(trusted), flash)
    {
      var dirty := CheckDirty();
      if dirty { EraseMemoryAndReset(device); }
      clean := !dirty;
    }

    method MonitorReadMemory(address: nat, length: nat, device: nat -> Answer) returns (ok: bool, buf: seq<Byte>)
      requires Valid()
      modifies this
      ensures Valid() && ok == !old(IsDirty()) && (old(Sound()) ==> Sound() && !IsDirty())
      ensures ok ==> flash == old(flash)
      ensures ok && OnDevice(address) ==> buf <= flash[address..] && |buf| <= length && |buf| <= 1024
      ensures ok && OnDevice(address) && Reliable(device) && |buf| < length && |buf| < 1024 ==> buf == flash[address..]
      ensures !ok && old(Sound()) && Reliable(device) ==> NothingLeft(old(trusted), flash)
    {
      buf := [];
      ok := GuardDirty(device);
      if ok {
        ghost var before := flash;
        var len := if length > 1024 then 1024 else length;
        var _, bytes, chunks, to := AccessMemory(Read, address, len, [], device);
        ReadChangesNothing(regions, before, flash, address, address + len);
        buf := bytes;
      }
    }

    method MonitorCheckMemory(address: nat, length: nat, device: nat -> Answer) returns (ok: bool)
      requires Valid()
      modifies this
      ensures Valid() && ok == !old(IsDirty()) && (old(Sound()) ==> Sound() && !IsDirty())
      ensures ok ==> flash == old(flash)
      ensures !ok && old(Sound()) && Reliable(device) ==> NothingLeft(old(trusted), flash)
    {
      ok := GuardDirty(device);
      if ok {
        ghost var before := flash;
        var _, _, _, _ := AccessMemory(Read, address, length, [], device);
        ReadChangesNothing(regions, before, flash, address, address + length);
      }
    }

    method MonitorEraseMemory(address: nat, length: nat, device: nat -> Answer) returns (ok: bool)
      requires Valid()
      modifies this
      ensures Valid() && (ok ==> !old(IsDirty())) && (old(Sound()) ==> Sound() && !IsDirty())
      ensures old(Sound()) && Reliable(device) ==> NothingLeft(old(trusted), flash)
      ensures !old(IsDirty()) && OnDevice(address) && !device(0).permitted ==> !ok && flash == old(flash)
      ensures !old(IsDirty()) && OnDevice(address) && Reliable(device) ==>
                ok && forall a :: address <= a < address + length && a < |flash| ==> flash[a] == ERASED
      ensures !old(IsDirty()) && !OnDevice(address) ==>
                flash == old(flash) && ok == (ramBase <= address < ramBase + ramSize && address + length <= ramBase + ramSize)
    {
      ok := GuardDirty(device);
      if ok {
        ghost var before := flash;
        var res, _, chunks, to := AccessMemory(Erase, address, length, [], device);
        if OnDevice(address) && Reliable(device) { ErasedEach(regions, chunks, flash, address, to); }
        ok := res;
      }
    }

    /** `program` says whether the word that marks a program is found at the address. */
    method MonitorExecute(address: nat, program: bool, device: nat -> Answer) returns (ok: bool, launches: bool)
      requires Valid()
      modifies this
      ensures Valid() && ok == !old(IsDirty()) && (old(Sound()) ==> Sound() && !IsDirty())
      ensures launches <==> ok && (program || address == 0)
      ensures ok ==> flash == old(flash)
      ensures !ok && old(Sound()) && Reliable(device) ==> NothingLeft(old(trusted), flash)
    {
      ok := GuardDirty(device);
      launches := ok && (program || address == 0);
    }

    /** The tracker stays sound exactly when the write is not the first of its kind to begin at address 0. */
    method MonitorWriteMemory(address: nat, data: seq<Byte>, device: nat -> Answer) returns (ok: bool)
      requires Valid()
      modifies this
      ensures Valid()
      ensures old(Sound()) ==> (Sound() <==> old(dataAddress) != 0 || address != 0 || data == [])
      ensures old(Sound()) && old(dataAddress) != 0 && !old(Continues(address)) ==> !ok && !IsDirty()
      ensures old(Sound()) && old(dataAddress) != 0 && !old(Continues(address)) && Reliable(device) ==> NothingLeft(old(trusted), flash)
      ensures old(dataAddress) == 0 || old(Continues(address)) ==> Changed(Write, regions, old(flash), flash, address, address + |data|) && trusted == old(trusted)
      ensures old(dataAddress) == 0 ==> dataAddress == address && dataLength == |data| && hasDevice == OnDevice(address)
      ensures old(dataAddress) != 0 && old(Continues(address)) ==>
                dataAddress == old(dataAddress) && dataLength == old(dataLength) + |data| && hasDevice == old(hasDevice)
      ensures OnDevice(address) && address + |data| < |flash| && (old(dataAddress) == 0 || old(Continues(address))) && Reliable(device)
        ==> ok && flash[address..address + |data|] == data
      ensures OnDevice(address) && (old(dataAddress) == 0 || old(Continues(address))) && !device(0).permitted ==> !ok && flash == old(flash)
      ensures !OnDevice(address) && (old(dataAddress) == 0 || old(Continues(address))) ==>
                flash == old(flash) && ok == (ramBase <= address < ramBase + ramSize && address + |data| <= ramBase + ramSize)
    {
      ghost var was := flash;
      var contiguous := VerifyContiguousData(address, |data|);
      if !contiguous {
        EraseMemoryAndReset(device);
        return false;
      }
      var res, _, _, to := AccessMemory(Write, address, |data|, data, device);
      ok := res;
    }

    /** After a write to address 0 the tracker follows the next write instead, and a signature of that one is enough:
        the first byte has been replaced and is taken as verified, though no signature has covered it. */
    static method LosesTrack(x: Byte, y: Byte) returns (e: LoaderEngine, ok: bool)
      requires x != ERASED
      ensures fresh(e) && e.Valid() && ok && !e.IsDirty() && |e.flash| == 16
      ensures e.trusted == e.flash && e.flash[0] == x && e.flash[8] == y
    {
      var device := (n: nat) => Answer(true, true, true, 0);
      e := new LoaderEngine([Region(0, 4, 4, 0)], 0x1000, 0x1000, true, seq(16, i => ERASED));
      OneRegion();
      assert Reliable(device);
      var _ := e.MonitorWriteMemory(0, [x], device);
      assert e.flash[0..1][0] == x;
      var _ := e.MonitorWriteMemory(8, [y], device);
      assert e.flash[8..9][0] == y;
      ok := e.VerifySignature(seq(RSA_BLOCK_SIZE_BYTES, i => 0), 0, (data, signature, key) => data == [y], true, device);
    }

    method Handle(c: Command, device: nat -> Answer) returns (ok: bool)
      requires Valid()
      modifies this
      ensures Valid() && (old(Sound()) && KeepsTrack(c) ==> Sound())
      ensures old(IsDirty()) && !c.WriteMemory? && !c.CheckSignature? ==> !ok
    {
      match c
      case ReadMemory(address, length) =>
        var res, _ := MonitorReadMemory(address, length, device);
        ok := res;
      case WriteMemory(address, data) => ok := MonitorWriteMemory(address, data, device);
      case CheckMemory(address, length) => ok := MonitorCheckMemory(address, length, device);
      case EraseMemory(address, length) => ok := MonitorEraseMemory(address, length, device);
      case Execute(address, program) =>
        var res, _ := MonitorExecute(address, program, device);
        ok := res;
      case CheckSignature(signature, keyIndex, verifies, loads) =>
        ok := VerifySignature(signature, keyIndex, (_, _, _) => verifies, loads, device);
    }

    /** Over every run of commands, whatever the hardware answers, what is written and not verified stays inside the
        tracked interval; so at the end a reliable device can still be cleared of all of it. */
    method ProcessCommands(commands: seq<Command>, device: (nat, nat) -> Answer)
      requires Valid() && Sound() && forall c :: c in commands ==> KeepsTrack(c)
      modifies this
      ensures Valid() && Sound()
    {
      for i := 0 to |commands|
        invariant Valid() && Sound()
      {
        var k: nat := i;
        var _ := Handle(commands[k], (n: nat) => device(k, n));
      }
    }
  }

  lemma OneRegion()
    ensures RegionsOk([Region(0, 4, 4, 0)]) && End(Region(0, 4, 4, 0)) == 16
  {
  }

  lemma Quotient(x: nat, p: nat, n: nat)
    requires p > 0 && x < n * p
    ensures 0 <= x / p < n && x / p * p <= x < x / p * p + p
  {
    var q := x / p;
    assert x == q * p + x % p;
    if q >= n { Grows(n, q, p); }
    if q < 0 { Grows(q, -1, p); }
  }

  lemma Grows(a: int, b: int, p: nat)
    requires a <= b
    ensures a * p <= b * p
  {
  }

  lemma {:induction false} RegionInDevice(regions: seq<Region>, i: nat)
    requires RegionsOk(regions) && i < |regions|
    ensures End(regions[i]) <= End(regions[|regions| - 1])
    decreases |regions| - i
  {
    if i + 1 < |regions| { RegionInDevice(regions, i + 1); }
  }

  lemma InDevice(regions: seq<Region>, i: nat, b: nat)
    requires RegionsOk(regions) && i < |regions| && b < regions[i].numBlocks
    ensures BlockAddress(regions[i], b) + regions[i].bytesPerBlock <= End(regions[|regions| - 1])
  {
    NextBlock(regions[i], b);
    BlockBefore(regions[i], b + 1, regions[i].numBlocks);
    RegionInDevice(regions, i);
  }

  lemma NothingYet(mode: Mode, regions: seq<Region>, device: nat -> Answer, was: seq<Byte>, data: seq<Byte>, from: nat, to: nat)
    ensures from <= |was| ==> Underway(mode, regions, device, was, was, [], data, [], from, from, to)
  {
  }

  /** Byte `offset` of block `b`, or the end of the region. */
  ghost predicate At(r: Region, b: nat, offset: nat, to: nat) {
    b <= r.numBlocks && to == BlockAddress(r, b) + offset && if b < r.numBlocks then offset < r.bytesPerBlock else offset == 0
  }

  lemma BlockBounds(regions: seq<Region>, i: nat, b: nat, address: nat)
    requires InBlock(regions, i, b, address)
    ensures i < |regions| && b < regions[i].numBlocks && BlockAddress(regions[i], b) <= address
    ensures At(regions[i], b, address - BlockAddress(regions[i], b), address)
  {
  }

  lemma Offset(r: Region, b: nat, offset: nat, to: nat)
    requires At(r, b, offset, to) && b < r.numBlocks
    ensures offset < r.bytesPerBlock
  {
  }

  lemma ChunkFits(regions: seq<Region>, c: Chunk, offset: nat)
    requires c.region < |regions| && c.block < regions[c.region].numBlocks && At(regions[c.region], c.block, offset, c.address)
    requires c.length <= regions[c.region].bytesPerBlock - offset
    ensures ChunkOk(regions, c) && InBlock(regions, c.region, c.block, c.address)
    ensures c.address + c.length <= BlockAddress(regions[c.region], c.block) + regions[c.region].bytesPerBlock
  {
    hide BlockAddress;
  }

  lemma AtNext(r: Region, b: nat, offset: nat, to: nat)
    requires At(r, b, offset, to) && b < r.numBlocks && r.bytesPerBlock > 0
    ensures At(r, b + 1, 0, to + r.bytesPerBlock - offset)
  {
    NextBlock(r, b);
  }

  lemma AtEnd(regions: seq<Region>, i: nat, b: nat, offset: nat, to: nat)
    requires RegionsOk(regions) && i < |regions| && b == regions[i].numBlocks && At(regions[i], b, offset, to)
    ensures if i + 1 < |regions| then At(regions[i + 1], 0, 0, to) && regions[i + 1].numBlocks > 0 else to == End(regions[|regions| - 1])
    ensures offset == 0
  {
    NextBlock(regions[i], b);
    if i + 1 < |regions| { NextBlock(regions[i + 1], 0); }
  }

  /** Every chunk so far was one whose block may be changed, and nothing but these has been. */
  ghost predicate Allowed(mode: Mode, regions: seq<Region>, device: nat -> Answer, chunks: seq<Chunk>, was: seq<Byte>, now: seq<Byte>, from: nat, to: nat) {
    && (mode != Read ==> forall k: nat :: k < |chunks| ==> device(k).permitted)
    && Changed(mode, regions, was, now, from, to) && (chunks == [] ==> now == was) && from <= to
  }

  ghost predicate Underway(mode: Mode, regions: seq<Region>, device: nat -> Answer, was: seq<Byte>, now: seq<Byte>, chunks: seq<Chunk>,
                           data: seq<Byte>, buf: seq<Byte>, from: nat, to: nat, end: nat) {
    && Progress(mode, regions, was, now, chunks, data, buf, from, to, end, Reliable(device))
    && Allowed(mode, regions, device, chunks, was, now, from, to)
  }

  /** No block is changed that must not be: the access stops there, and fails exactly for that. */
  ghost predicate Permitted(mode: Mode, regions: seq<Region>, device: nat -> Answer, chunks: seq<Chunk>, res: bool,
                            was: seq<Byte>, now: seq<Byte>, from: nat, to: nat, end: nat) {
    && (mode != Read ==> forall k: nat :: k < |chunks| ==> device(k).permitted)
    && (res && mode != Read && to < end && to < |now| ==> device(|chunks|).permitted)
    && (!res ==> mode != Read && !device(|chunks|).permitted && Changed(mode, regions, was, now, from, to) && (chunks == [] ==> now == was))
    && (mode != Read && !device(0).permitted ==> !res && chunks == [])
  }

  lemma AllowedTo(mode: Mode, regions: seq<Region>, device: nat -> Answer, chunks: seq<Chunk>, was: seq<Byte>, before: seq<Byte>, now: seq<Byte>,
                  from: nat, to: nat, end: nat, c: Chunk)
    requires Allowed(mode, regions, device, chunks, was, before, from, to) && (mode == Read || device(|chunks|).permitted)
    ensures Permitted(mode, regions, device, chunks, true, was, now, from, to, end)
  {
    hide Changed;
  }

  lemma AllowedMore(mode: Mode, regions: seq<Region>, device: nat -> Answer, chunks: seq<Chunk>, was: seq<Byte>, before: seq<Byte>, now: seq<Byte>,
                    from: nat, to: nat, c: Chunk)
    requires Allowed(mode, regions, device, chunks, was, before, from, to) && (mode == Read || device(|chunks|).permitted)
    requires Changed(mode, regions, before, now, to, to + c.length) && (c.length > 0 || to == from)
    ensures Allowed(mode, regions, device, chunks + [c], was, now, from, to + c.length)
  {
    ChangedLess(mode, regions, was, before, from, to, to + c.length);
    ChangedMore(mode, regions, was, before, now, from, to + c.length, to, to + c.length);
    hide Changed;
  }

  lemma ChangedLess(mode: Mode, regions: seq<Region>, was: seq<Byte>, now: seq<Byte>, from: nat, to: nat, more: nat)
    requires Changed(mode, regions, was, now, from, to) && to <= more
    ensures Changed(mode, regions, was, now, from, more)
  {
  }

  lemma RefusedHere(mode: Mode, regions: seq<Region>, device: nat -> Answer, was: seq<Byte>, now: seq<Byte>, chunks: seq<Chunk>,
                    data: seq<Byte>, buf: seq<Byte>, from: nat, to: nat, end: nat)
    requires Underway(mode, regions, device, was, now, chunks, data, buf, from, to, end) && mode != Read && !device(|chunks|).permitted
    ensures Permitted(mode, regions, device, chunks, false, was, now, from, to, end) && !Reliable(device)
    ensures Progress(mode, regions, was, now, chunks, data, buf, from, to, end, Reliable(device))
  {
    hide Changed, Progress;
  }

  lemma EndsHere(mode: Mode, regions: seq<Region>, device: nat -> Answer, was: seq<Byte>, before: seq<Byte>, now: seq<Byte>, chunks: seq<Chunk>,
                 data: seq<Byte>, buf: seq<Byte>, part: seq<Byte>, bytes: seq<Byte>, from: nat, to: nat, end: nat, c: Chunk)
    requires Underway(mode, regions, device, was, before, chunks, data, buf, from, to, end) && (mode == Read || device(|chunks|).permitted)
    requires Accessed(mode, regions, c, before, now, part, bytes, device(|chunks|), false)
    requires c.address == to && to + c.length <= end && (to < end || to == from)
    ensures Permitted(mode, regions, device, chunks, true, was, now, from, to, end) && !Reliable(device)
    ensures Progress(mode, regions, was, now, chunks, data, buf, from, to, end, Reliable(device))
  {
    hide Changed, Progress, AroundWrite;
    assert !Reliable(device);
    AllowedTo(mode, regions, device, chunks, was, before, now, from, to, end, c);
    ProgressStops(mode, regions, was, before, now, chunks, data, buf, from, to, end, c, false);
  }

  lemma GoesOn(mode: Mode, regions: seq<Region>, device: nat -> Answer, was: seq<Byte>, before: seq<Byte>, now: seq<Byte>, chunks: seq<Chunk>,
               data: seq<Byte>, buf: seq<Byte>, part: seq<Byte>, bytes: seq<Byte>, from: nat, to: nat, end: nat, c: Chunk)
    requires Underway(mode, regions, device, was, before, chunks, data, buf, from, to, end) && (mode == Read || device(|chunks|).permitted)
    requires Accessed(mode, regions, c, before, now, part, bytes, device(|chunks|), true) && ChunkOk(regions, c)
    requires c.address == to && to + c.length <= end && (to < end || to == from) && (c.length > 0 || to == from)
    requires mode == Write ==> from <= to && to - from + c.length <= |data| && part == data[to - from..to - from + c.length]
    ensures Underway(mode, regions, device, was, now, chunks + [c], data, buf + bytes, from, to + c.length, end) && to + c.length <= |now|
  {
    hide Changed, Progress, AroundWrite, ChunkOk;
    AllowedMore(mode, regions, device, chunks, was, before, now, from, to, c);
    SameSize(mode, regions, before, now, to, to + c.length);
    ProgressMore(mode, regions, was, before, now, chunks, data, buf, bytes, from, to, end, c, Reliable(device), device(|chunks|).erases);
  }

  lemma SameSize(mode: Mode, regions: seq<Region>, was: seq<Byte>, now: seq<Byte>, from: nat, to: nat)
    requires Changed(mode, regions, was, now, from, to)
    ensures |now| == |was|
  {
  }

  lemma EndsAll(mode: Mode, regions: seq<Region>, device: nat -> Answer, was: seq<Byte>, now: seq<Byte>, chunks: seq<Chunk>,
                data: seq<Byte>, buf: seq<Byte>, from: nat, to: nat, end: nat)
    requires Underway(mode, regions, device, was, now, chunks, data, buf, from, to, end) && (to == end || to == |now|) && chunks != []
    ensures Permitted(mode, regions, device, chunks, true, was, now, from, to, end)
    ensures Progress(mode, regions, was, now, chunks, data, buf, from, to, end, Reliable(device))
  {
    hide Changed, Progress;
  }

  lemma ChangedMore(mode: Mode, regions: seq<Region>, was: seq<Byte>, before: seq<Byte>, now: seq<Byte>, from: nat, to: nat, a: nat, b: nat)
    requires Changed(mode, regions, was, before, from, to) && Changed(mode, regions, before, now, a, b) && from <= a && b <= to && (a < to || a == from)
    ensures Changed(mode, regions, was, now, from, to)
  {
  }

  lemma StillAchieved(mode: Mode, regions: seq<Region>, chunks: seq<Chunk>, before: seq<Byte>, now: seq<Byte>, data: seq<Byte>, buf: seq<Byte>,
                      from: nat, to: nat, end: nat)
    requires Achieved(mode, regions, chunks, before, data, buf, from, to) && Changed(mode, regions, before, now, to, end)
    requires mode == Write ==> to <= |before| && now[..to] == before[..to]
    ensures Achieved(mode, regions, chunks, now, data, buf, from, to)
  {
    hide InBlock;
    match mode
    case Read => assert now == before;
    case Write => assert now[from..to] == now[..to][from..] == before[from..to];
    case Erase =>
  }

  lemma AchievedMore(mode: Mode, regions: seq<Region>, chunks: seq<Chunk>, before: seq<Byte>, now: seq<Byte>, data: seq<Byte>, buf: seq<Byte>, bytes: seq<Byte>,
                     from: nat, to: nat, c: Chunk)
    requires Achieved(mode, regions, chunks, before, data, buf, from, to) && Changed(mode, regions, before, now, to, to + c.length)
    requires c.address == to && to + c.length <= |now| && from <= to
    requires mode == Write ==> now[..to] == before[..to] && to - from + c.length <= |data| && now[to..to + c.length] == data[to - from..to - from + c.length]
    requires mode == Read ==> bytes == now[to..to + c.length]
    requires mode == Erase ==> forall x :: 0 <= x < |now| && InBlock(regions, c.region, c.block, x) ==> now[x] == ERASED
    ensures Achieved(mode, regions, chunks + [c], now, data, buf + bytes, from, to + c.length)
  {
    hide InBlock;
    StillAchieved(mode, regions, chunks, before, now, data, buf, from, to, to + c.length);
    match mode
    case Read =>
    case Write =>
      var n := to - from;
      assert now[from..to + c.length] == now[from..to] + now[to..to + c.length];
      assert data[..n + c.length] == data[..n] + data[n..n + c.length];
    case Erase =>
  }

  lemma ProgressStops(mode: Mode, regions: seq<Region>, was: seq<Byte>, before: seq<Byte>, now: seq<Byte>, chunks: seq<Chunk>, data: seq<Byte>, buf: seq<Byte>,
                      from: nat, to: nat, end: nat, c: Chunk, reliable: bool)
    requires Progress(mode, regions, was, before, chunks, data, buf, from, to, end, reliable) && !reliable
    requires Changed(mode, regions, before, now, to, to + c.length)
    requires from <= to && to + c.length <= end && (to < end || to == from)
    requires mode == Write ==> to <= |before| && now[..to] == before[..to]
    ensures Progress(mode, regions, was, now, chunks, data, buf, from, to, end, reliable)
  {
    hide Changed, Achieved, Tiles, RestErased;
    ChangedMore(mode, regions, was, before, now, from, end, to, to + c.length);
    StillAchieved(mode, regions, chunks, before, now, data, buf, from, to, to + c.length);
  }

  lemma ProgressMore(mode: Mode, regions: seq<Region>, was: seq<Byte>, before: seq<Byte>, now: seq<Byte>, chunks: seq<Chunk>, data: seq<Byte>, buf: seq<Byte>,
                     bytes: seq<Byte>, from: nat, to: nat, end: nat, c: Chunk, reliable: bool, erases: bool)
    requires Progress(mode, regions, was, before, chunks, data, buf, from, to, end, reliable) && Changed(mode, regions, before, now, to, to + c.length)
    requires from <= to && to + c.length <= end && (to < end || to == from)
    requires ChunkOk(regions, c) && c.address == to && to + c.length <= |now| == |before|
    requires mode == Write ==> now[..to] == before[..to] && to - from + c.length <= |data| && now[to..to + c.length] == data[to - from..to - from + c.length]
    requires mode == Write ==> AroundWrite(regions, c, before, now, erases) && (reliable ==> erases)
    requires mode == Read ==> bytes == now[to..to + c.length]
    requires mode == Erase ==> forall x :: 0 <= x < |now| && InBlock(regions, c.region, c.block, x) ==> now[x] == ERASED
    ensures Progress(mode, regions, was, now, chunks + [c], data, buf + bytes, from, to + c.length, end, reliable)
  {
    hide Changed, Achieved, Tiles, InBlock, RestErased, AroundWrite;
    ChangedMore(mode, regions, was, before, now, from, end, to, to + c.length);
    TilesMore(regions, chunks, from, to, c);
    AchievedMore(mode, regions, chunks, before, now, data, buf, bytes, from, to, c);
    if mode == Write && reliable { RestMore(regions, chunks, before, now, from, to, c); }
  }

  lemma RestMore(regions: seq<Region>, chunks: seq<Chunk>, before: seq<Byte>, now: seq<Byte>, from: nat, to: nat, c: Chunk)
    requires RestErased(regions, chunks, before, from, to) && from <= to == c.address && AroundWrite(regions, c, before, now, true)
    ensures RestErased(regions, chunks + [c], now, from, to + c.length)
  {
    hide InBlock;
  }

  /** Erasing every block that the interval touches leaves nothing of what was written to it. */
  lemma ErasedAll(regions: seq<Region>, chunks: seq<Chunk>, trusted: seq<Byte>, was: seq<Byte>, now: seq<Byte>, from: nat, to: nat, length: nat)
    requires Contained(trusted, was, from, from + length) && Changed(Erase, regions, was, now, from, from + length)
    requires Tiles(regions, chunks, from, to) && Achieved(Erase, regions, chunks, now, [], [], from, to)
    requires to == if from + length < |now| then from + length else |now|
    ensures NothingLeft(trusted, now)
  {
    hide Tiles, InBlock;
    forall a | 0 <= a < |now|
      ensures now[a] == trusted[a] || now[a] == ERASED
    {
      if from <= a < from + length {
        var k := Covered(regions, chunks, from, to, a);
      }
    }
  }

  lemma ErasedEach(regions: seq<Region>, chunks: seq<Chunk>, now: seq<Byte>, from: nat, to: nat)
    requires Tiles(regions, chunks, from, to) && Achieved(Erase, regions, chunks, now, [], [], from, to)
    ensures forall a :: from <= a < to && a < |now| ==> now[a] == ERASED
  {
    hide Tiles, InBlock;
    forall a: nat | from <= a < to && a < |now| ensures now[a] == ERASED {
      var k := Covered(regions, chunks, from, to, a);
    }
  }

  lemma ReadChangesNothing(regions: seq<Region>, was: seq<Byte>, now: seq<Byte>, from: nat, to: nat)
    requires Changed(Read, regions, was, now, from, to)
    ensures now == was
  {
  }
}
