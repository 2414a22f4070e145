/** The static configuration of the virtual machines (vm_config.h). */
module Config {
  import opened Bits

  const MAX_DEVS := 10

  datatype MmioDev = MmioDev(physBase: Word, virtBase: Word, size: Word, perm: nat, physIrq: int, virtIrq: int)

  /** `devices` is the array up to its NULL terminator; `table` is the first of the four
  pages of vm_pgtable. */
  datatype VmConfig = VmConfig(
    cpuAffinity: Word, imageBase: Word, imageEnd: Word, memoryBase: Word, memorySize: Word,
    devices: seq<MmioDev>, table: nat)
}
