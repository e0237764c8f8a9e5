/**
 * The host's one error taxonomy and the two tables that translate raw device
 * status bytes into it: one for the stub ("soft") loader's codes and one for
 * the ROM loader's codes.
 *
 * Errors.cs (mapping into `Errors`) and Commands/EnumErrorHelper.cs (mapping
 * into `ResponseErrors`) hold the same two tables over two enums whose members
 * agree name for name and value for value, so the model states each table once.
 */
module Errors {
  import opened Common

  /** The shared error enum, in declaration order (its default is NoError). */
  datatype Status =
    | NoError | Unknown | Invalid | Failed | InvalidCRC | WriteError | ReadError
    | ReadLenthError | DeflateError | BadBlockSize | FailedSPIOP | FailedSPIUnlock
    | NotInFlashMode | InflateError | NotEnoughData | TooMuchData | TaskCancelled
    | UnsupportedByLoader | UnsupportedByDevice | MD5Mismatch | WrongChip

  /** The stub loader's raw status codes (stub_flasher.h). */
  const ESP_OK: byte := 0x00
  const ESP_BAD_DATA_LEN: byte := 0xC0
  const ESP_BAD_DATA_CHECKSUM: byte := 0xC1
  const ESP_BAD_BLOCKSIZE: byte := 0xC2
  const ESP_INVALID_COMMAND: byte := 0xC3
  const ESP_FAILED_SPI_OP: byte := 0xC4
  const ESP_FAILED_SPI_UNLOCK: byte := 0xC5
  const ESP_NOT_IN_FLASH_MODE: byte := 0xC6
  const ESP_INFLATE_ERROR: byte := 0xC7
  const ESP_NOT_ENOUGH_DATA: byte := 0xC8
  const ESP_TOO_MUCH_DATA: byte := 0xC9
  const ESP_CMD_NOT_IMPLEMENTED: byte := 0xFF

  /** The ROM loader's raw status codes. */
  const ROM_INVALID: byte := 0x05
  const ROM_FAILED: byte := 0x06
  const ROM_INVALID_CRC: byte := 0x07
  const ROM_WRITE_ERROR: byte := 0x08
  const ROM_READ_ERROR: byte := 0x09
  const ROM_READ_LENGTH_ERROR: byte := 0x0A
  const ROM_DEFLATE_ERROR: byte := 0x0B

  /** Every raw code the stub loader names. */
  predicate IsStubCode(code: byte)
  {
    code == ESP_OK || (ESP_BAD_DATA_LEN <= code <= ESP_TOO_MUCH_DATA) || code == ESP_CMD_NOT_IMPLEMENTED
  }

  /** Every raw code the ROM loader names. */
  predicate IsRomCode(code: byte)
  {
    ROM_INVALID <= code <= ROM_DEFLATE_ERROR
  }

  /** Errors only the stub loader reports. */
  predicate StubOnly(e: Status)
  {
    e in {BadBlockSize, FailedSPIOP, FailedSPIUnlock, NotInFlashMode, InflateError, NotEnoughData, TooMuchData}
  }

  /** `SoftLoaderErrors.ToGlobalError`: a stub status byte as a shared error. */
  function StubStatus(code: byte): (e: Status)
    ensures e == NoError <==> code == ESP_OK
    ensures e == Unknown <==> !IsStubCode(code)
    ensures e == Failed <==> code == ESP_INVALID_COMMAND || code == ESP_CMD_NOT_IMPLEMENTED
  {
    if code == ESP_OK then NoError
    else if code == ESP_BAD_DATA_LEN then Invalid
    else if code == ESP_BAD_DATA_CHECKSUM then InvalidCRC
    else if code == ESP_BAD_BLOCKSIZE then BadBlockSize
    else if code == ESP_INVALID_COMMAND then Failed
    else if code == ESP_FAILED_SPI_OP then FailedSPIOP
    else if code == ESP_FAILED_SPI_UNLOCK then FailedSPIUnlock
    else if code == ESP_NOT_IN_FLASH_MODE then NotInFlashMode
    else if code == ESP_INFLATE_ERROR then InflateError
    else if code == ESP_NOT_ENOUGH_DATA then NotEnoughData
    else if code == ESP_TOO_MUCH_DATA then TooMuchData
    else if code == ESP_CMD_NOT_IMPLEMENTED then Failed
    else Unknown
  }

  /** `RomLoaderErrors.ToGlobalError`: a ROM status byte as a shared error. */
  function RomStatus(code: byte): (e: Status)
    ensures e != NoError && !StubOnly(e)
    ensures e == Unknown <==> !IsRomCode(code)
  {
    if code == ROM_INVALID then Invalid
    else if code == ROM_FAILED then Failed
    else if code == ROM_INVALID_CRC then InvalidCRC
    else if code == ROM_WRITE_ERROR then WriteError
    else if code == ROM_READ_ERROR then ReadError
    else if code == ROM_READ_LENGTH_ERROR then ReadLenthError
    else if code == ROM_DEFLATE_ERROR then DeflateError
    else Unknown
  }

  /** Two different stub codes share one error, so the stub table cannot be inverted. */
  lemma StubStatusNotInjective()
    ensures exists a: byte, b: byte :: a != b && StubStatus(a) == StubStatus(b) && IsStubCode(a) && IsStubCode(b)
  {
    assert StubStatus(ESP_INVALID_COMMAND) == StubStatus(ESP_CMD_NOT_IMPLEMENTED);
  }

  /** On its seven named codes the ROM table is one-to-one. */
  lemma RomStatusInjective(a: byte, b: byte)
    requires IsRomCode(a) && IsRomCode(b) && RomStatus(a) == RomStatus(b)
    ensures a == b
  {
  }

  /** The zero byte means success to the stub table and an unknown error to the ROM table. */
  lemma ZeroDiffersBetweenTables()
    ensures StubStatus(0) == NoError && RomStatus(0) == Unknown
  {
  }
}
