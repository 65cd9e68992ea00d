/**
 * `ProcessUtilities.isManaged`: classifies an executable from the first 4096
 * bytes of its file as a script or ELF image (on platforms whose volume
 * separator is '/'), a non-PE file, a native PE image, or a CLR assembly
 * (pure or mixed). The checks follow the Microsoft PE/COFF specification:
 * the "MZ" signature of the MS-DOS stub, the "PE\0\0" signature at the offset
 * stored at 0x3C, and, in the PE32 optional header's data directories, the
 * size of the Export Table and the CLR Runtime Header entry. The ELF check is
 * the magic number of `e_ident` in the System V ABI ELF header.
 */
module ProcessUtilities {
  import opened Wrappers
  import opened Bytes

  datatype CompilationMode = Invalid | Native | CLR | Mixed

  /** The number of bytes read from the file. */
  const BufferSize := 4096
  /** "MZ" read as a little-endian 16-bit word. */
  const DosSignature := 0x5A4D
  /** "PE\0\0" read as a little-endian 32-bit word. */
  const PeSignature := 0x0000_4550
  /** The position of the PE header offset in the MS-DOS stub. */
  const PeHeaderOffsetField := 0x3C
  /** The PE signature and COFF file header in front of the optional header. */
  const OptionalHeaderStart := 24
  /** The Export Table directory's size field in a PE32 optional header. */
  const ExportTableSizeField := 96 + 4
  /** The CLR Runtime Header directory (address and size) in a PE32 optional header. */
  const ClrHeaderDirectory := 208
  const UInt32Modulus := 0x1_0000_0000
  const IndexOutOfRange := "Index was outside the bounds of the array."

  /** The buffer `isManaged` fills: the first 4096 bytes of the file, zeros past its end. */
  function ReadBuffer(file: seq<byte>): (data: seq<byte>)
    ensures |data| == BufferSize
    ensures forall k :: 0 <= k < BufferSize ==> data[k] == if k < |file| then file[k] else 0
  {
    if |file| >= BufferSize then file[..BufferSize] else file + Zeros(BufferSize - |file|)
  }

  function Zeros(n: nat): (z: seq<byte>)
    ensures |z| == n && forall k :: 0 <= k < n ==> z[k] == 0
  {
    if n == 0 then [] else Zeros(n - 1) + [0]
  }

  /** `UInt16FromBytes`: the little-endian word at `offset`; the array access faults past the end. */
  function UInt16FromBytes(p: seq<byte>, offset: nat): (r: Result<nat>)
    ensures r.Success? <==> offset + 1 < |p|
    ensures r.Success? ==> r.value < 0x1_0000 && r.value == FromLittleEndian(p[offset..offset + 2])
  {
    if offset + 1 < |p| then
      assert p[offset..offset + 2][1..] == [p[offset + 1]];
      Success(p[offset + 1] as nat * 0x100 + p[offset] as nat)
    else Failure(IndexOutOfRange)
  }

  /** `UInt32FromBytes`: the little-endian double word at `offset`; the array access faults past the end. */
  function UInt32FromBytes(p: seq<byte>, offset: nat): (r: Result<nat>)
    ensures r.Success? <==> offset + 3 < |p|
    ensures r.Success? ==> r.value < UInt32Modulus && r.value == FromLittleEndian(p[offset..offset + 4])
  {
    if offset + 3 < |p| then
      FromLittleEndian4(p[offset..offset + 4]);
      Success(p[offset + 3] as nat * 0x100_0000 + p[offset + 2] as nat * 0x1_0000 + p[offset + 1] as nat * 0x100 + p[offset] as nat)
    else Failure(IndexOutOfRange)
  }

  lemma FromLittleEndian4(w: seq<byte>)
    requires |w| == 4
    ensures FromLittleEndian(w) == w[3] as nat * 0x100_0000 + w[2] as nat * 0x1_0000 + w[1] as nat * 0x100 + w[0] as nat
  {
    assert w[1..][1..][1..][1..] == [];
    assert w[1..][1..][1..] == [w[3]];
    assert w[1..][1..] == [w[2], w[3]];
  }

  /** The bitwise or of `count` bytes from `from`. */
  function OrBytes(p: seq<byte>, from: nat, count: nat): (r: byte)
    requires from + count <= |p|
    ensures r == 0 <==> forall k :: from <= k < from + count ==> p[k] == 0
  {
    if count == 0 then 0 else Or(OrBytes(p, from, count - 1), p[from + count - 1])
  }

  /** The first two bytes are the ASCII "#!" of a script. */
  predicate IsScript(data: seq<byte>)
    requires |data| == BufferSize
  {
    data[0] == 0x23 && data[1] == 0x21
  }

  /** The first four bytes are the ELF magic number 0x7F 'E' 'L' 'F'. */
  predicate IsElf(data: seq<byte>)
    requires |data| == BufferSize
  {
    data[0] == 0x7F && data[1] == 0x45 && data[2] == 0x4C && data[3] == 0x46
  }

  /** The PE header offset stored at 0x3C. */
  function HeaderOffset(data: seq<byte>): nat
    requires |data| == BufferSize
  {
    FromLittleEndian(data[PeHeaderOffsetField..PeHeaderOffsetField + 4])
  }

  /**
   * `isManaged` over the file's contents. `volumeSeparatorIsSlash` stands for
   * `Path.VolumeSeparatorChar == '/'`. A fault of an array access, which the
   * source rethrows, is a failure.
   */
  function IsManaged(file: seq<byte>, volumeSeparatorIsSlash: bool): (r: Result<CompilationMode>)
    ensures r.Failure? ==> r.error == IndexOutOfRange
  {
    var data := ReadBuffer(file);
    if volumeSeparatorIsSlash && IsScript(data) then Success(Native)
    else if volumeSeparatorIsSlash && IsElf(data) then Success(Native)
    else if UInt16FromBytes(data, 0).value != DosSignature then Success(Invalid)
    else ClassifyPe(data, UInt32FromBytes(data, PeHeaderOffsetField).value)
  }

  /** The checks from the PE signature at `headerOffset` on. */
  function ClassifyPe(data: seq<byte>, headerOffset: nat): Result<CompilationMode>
    requires |data| == BufferSize
  {
    var signature := UInt32FromBytes(data, headerOffset);
    if signature.Failure? then Failure(signature.error)
    else if signature.value != PeSignature then Success(Invalid)
    else
      // unsigned 32-bit additions; they cannot wrap once the signature was read
      var optionalHeaderBase := (headerOffset + OptionalHeaderStart) % UInt32Modulus;
      var exportTableSize := UInt32FromBytes(data, (optionalHeaderBase + ExportTableSizeField) % UInt32Modulus);
      if exportTableSize.Failure? then Failure(exportTableSize.error)
      else ClassifyClr(data, headerOffset + OptionalHeaderStart + ClrHeaderDirectory, exportTableSize.value)
  }

  /** The CLR Runtime Header directory decides between native and managed, the export table between pure and mixed. */
  function ClassifyClr(data: seq<byte>, clrHeader: nat, exportTableSize: nat): Result<CompilationMode>
  {
    if clrHeader + 8 > |data| then Failure(IndexOutOfRange)
    else if OrBytes(data, clrHeader, 8) == 0 then Success(Native)
    else if exportTableSize > 0 then Success(Mixed)
    else Success(CLR)
  }

  /** On '/' platforms a script or an ELF image is native, whatever follows. */
  lemma IsManagedUnixImages(file: seq<byte>, volumeSeparatorIsSlash: bool)
    requires volumeSeparatorIsSlash
    requires IsScript(ReadBuffer(file)) || IsElf(ReadBuffer(file))
    ensures IsManaged(file, volumeSeparatorIsSlash) == Success(Native)
  {
  }

  /** Without the "MZ" signature (and not a '/' platform script or ELF image) the file is invalid. */
  lemma IsManagedNeedsDosSignature(file: seq<byte>, volumeSeparatorIsSlash: bool)
    requires var data := ReadBuffer(file); !(volumeSeparatorIsSlash && (IsScript(data) || IsElf(data)))
    requires var data := ReadBuffer(file); data[0] != 0x4D || data[1] != 0x5A
    ensures IsManaged(file, volumeSeparatorIsSlash) == Success(Invalid)
  {
    var data := ReadBuffer(file);
    SignatureBytes(data[0..2], DosSignature, [0x4D, 0x5A]);
  }

  /** The end of the CLR Runtime Header directory, relative to the PE header. */
  const ClrHeaderEnd := OptionalHeaderStart + ClrHeaderDirectory + 8

  /**
   * The classification faults exactly when the PE signature, or (after a
   * matching signature) the CLR Runtime Header directory, lies past the buffer.
   */
  lemma IsManagedFaults(file: seq<byte>, volumeSeparatorIsSlash: bool)
    ensures var data := ReadBuffer(file); var h := HeaderOffset(data);
      IsManaged(file, volumeSeparatorIsSlash).Failure? <==>
        !(volumeSeparatorIsSlash && (IsScript(data) || IsElf(data))) && data[0] == 0x4D && data[1] == 0x5A &&
        (h + 3 >= BufferSize || (data[h..h + 4] == [0x50, 0x45, 0, 0] && h + ClrHeaderEnd > BufferSize))
  {
    var data := ReadBuffer(file);
    SignatureBytes(data[0..2], DosSignature, [0x4D, 0x5A]);
    ClassifyPeFaults(data, HeaderOffset(data));
  }

  /** From the PE signature on, the checks fault exactly when the signature, or after it the CLR directory, lies past the buffer. */
  lemma ClassifyPeFaults(data: seq<byte>, h: nat)
    requires |data| == BufferSize
    ensures ClassifyPe(data, h).Failure? <==>
      h + 3 >= BufferSize || (data[h..h + 4] == [0x50, 0x45, 0, 0] && h + ClrHeaderEnd > BufferSize)
  {
    if h + 3 < BufferSize {
      SignatureBytes(data[h..h + 4], PeSignature, [0x50, 0x45, 0, 0]);
    }
  }

  /**
   * A CLR or mixed result means an "MZ" file with the "PE\0\0" signature
   * whose CLR Runtime Header directory holds a non-zero byte.
   */
  lemma IsManagedAssemblies(file: seq<byte>, volumeSeparatorIsSlash: bool)
    requires IsManaged(file, volumeSeparatorIsSlash) == Success(CLR) || IsManaged(file, volumeSeparatorIsSlash) == Success(Mixed)
    ensures var data := ReadBuffer(file); var h := HeaderOffset(data);
      data[0] == 0x4D && data[1] == 0x5A && h + ClrHeaderEnd <= BufferSize &&
      data[h..h + 4] == [0x50, 0x45, 0, 0] &&
      exists k :: h + OptionalHeaderStart + ClrHeaderDirectory <= k < h + ClrHeaderEnd && data[k] != 0
  {
    var data := ReadBuffer(file);
    var h := HeaderOffset(data);
    SignatureBytes(data[0..2], DosSignature, [0x4D, 0x5A]);
    SignatureBytes(data[h..h + 4], PeSignature, [0x50, 0x45, 0, 0]);
  }

  /** Among assemblies, a mixed one is exactly one whose export table is non-empty. */
  lemma IsManagedMixed(file: seq<byte>, volumeSeparatorIsSlash: bool)
    requires IsManaged(file, volumeSeparatorIsSlash) == Success(CLR) || IsManaged(file, volumeSeparatorIsSlash) == Success(Mixed)
    ensures var data := ReadBuffer(file); var e := HeaderOffset(data) + OptionalHeaderStart + ExportTableSizeField;
      e + 4 <= BufferSize &&
      (IsManaged(file, volumeSeparatorIsSlash) == Success(Mixed) <==> FromLittleEndian(data[e..e + 4]) > 0)
  {
    var data := ReadBuffer(file);
    var h := HeaderOffset(data);
    assert IsManaged(file, volumeSeparatorIsSlash) == ClassifyPe(data, h);
    ClassifyPeMixed(data, h);
  }

  lemma ClassifyPeMixed(data: seq<byte>, h: nat)
    requires |data| == BufferSize
    requires ClassifyPe(data, h) == Success(CLR) || ClassifyPe(data, h) == Success(Mixed)
    ensures var e := h + OptionalHeaderStart + ExportTableSizeField;
      e + 4 <= BufferSize &&
      (ClassifyPe(data, h) == Success(Mixed) <==> FromLittleEndian(data[e..e + 4]) > 0)
  {
    assert h + 3 < BufferSize;
    assert (h + OptionalHeaderStart) % UInt32Modulus == h + OptionalHeaderStart;
    var e := h + OptionalHeaderStart + ExportTableSizeField;
    assert (h + OptionalHeaderStart + ExportTableSizeField) % UInt32Modulus == e;
    assert UInt32FromBytes(data, e).Success?;
  }

  /** Off '/' platforms a native result means a PE image whose CLR Runtime Header directory is all zero. */
  lemma IsManagedNative(file: seq<byte>, volumeSeparatorIsSlash: bool)
    requires !volumeSeparatorIsSlash && IsManaged(file, volumeSeparatorIsSlash) == Success(Native)
    ensures var data := ReadBuffer(file); var h := HeaderOffset(data);
      data[0] == 0x4D && data[1] == 0x5A && h + ClrHeaderEnd <= BufferSize &&
      data[h..h + 4] == [0x50, 0x45, 0, 0] &&
      (forall k :: h + OptionalHeaderStart + ClrHeaderDirectory <= k < h + ClrHeaderEnd ==> data[k] == 0)
  {
    var data := ReadBuffer(file);
    var h := HeaderOffset(data);
    SignatureBytes(data[0..2], DosSignature, [0x4D, 0x5A]);
    SignatureBytes(data[h..h + 4], PeSignature, [0x50, 0x45, 0, 0]);
  }

  /** A little-endian word equals a signature exactly when its bytes are the signature's bytes. */
  lemma SignatureBytes(word: seq<byte>, signature: nat, bytes: seq<byte>)
    requires |word| == |bytes| && signature < Pow256(|bytes|)
    requires FromLittleEndian(bytes) == signature
    ensures FromLittleEndian(word) == signature <==> word == bytes
  {
    ToFromLittleEndian(word);
    ToFromLittleEndian(bytes);
  }
}
