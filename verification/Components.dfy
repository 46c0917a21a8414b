/** The component types the modules assign (src/include/yloc/component_types.h) and hwloc's object types. */
module Components {
  datatype Component =
    | UnknownComponentType
    | Node
    | LogicalCore
    | PhysicalCore
    | Memory
    | DataCache(level: nat)         // level 0 is the class DataCache itself
    | InstructionCache(level: nat)
    | PCIDevice
    | Accelerator
    | GPU
    | Bridge
    | LogicalAccelerator
    | LogicalGPU
    | Misc
    | MPIProcess

  // is_a<T>, for the classes T that the modules and the queries test for
  predicate IsPCIDevice(c: Component) { c.PCIDevice? || IsAccelerator(c) }
  predicate IsAccelerator(c: Component) { c.Accelerator? || c.GPU? }
  predicate IsLogicalCore(c: Component) { c.LogicalCore? }
  predicate IsMPIProcess(c: Component) { c.MPIProcess? }

  /** Which of them a component is: accelerators are PCI devices, GPUs are accelerators, logical GPUs are neither. */
  lemma Classes(c: Component)
    ensures IsAccelerator(c) <==> c == Accelerator || c == GPU
    ensures IsPCIDevice(c) <==> c == PCIDevice || IsAccelerator(c)
    ensures IsLogicalCore(c) <==> c == LogicalCore
    ensures IsMPIProcess(c) <==> c == MPIProcess
  {
  }

  datatype OsDevice = OsGpu | OsCoproc | OsDma | OsNetwork | OsOpenFabrics | OsBlock

  datatype ObjType =
    | ObjMachine | ObjPackage | ObjDie | ObjGroup | ObjCore | ObjPu
    | ObjCache(level: nat)          // L1..L5, data or unified
    | ObjICache(level: nat)         // L1..L3
    | ObjNumaNode | ObjMemCache
    | ObjBridge | ObjPciDevice | ObjOsDevice(device: OsDevice) | ObjMisc

  /** hwloc_2_yloc_type. */
  function YlocType(t: ObjType): (c: Component)
    ensures IsPCIDevice(c) <==> t.ObjPciDevice?
    ensures IsLogicalCore(c) <==> t.ObjPu?
    ensures !IsMPIProcess(c) && !IsAccelerator(c) && c != UnknownComponentType
  {
    match t
    case ObjICache(level) => InstructionCache(if 1 <= level <= 3 then level else 0)
    case ObjCache(level) => DataCache(if 1 <= level <= 4 then level else 0)
    case ObjNumaNode => Memory
    case ObjMemCache => Memory
    case ObjOsDevice(OsGpu) => LogicalGPU
    case ObjOsDevice(OsCoproc) => LogicalAccelerator
    case ObjOsDevice(_) => Misc
    case ObjCore => PhysicalCore
    case ObjPu => LogicalCore
    case ObjMachine => Node
    case ObjBridge => Bridge
    case ObjPciDevice => PCIDevice
    case _ => Misc
  }

  /** What becomes of every type of object; data caches have a class of their own up to level 4, instruction caches up
      to level 3. */
  lemma TypeOfObject(t: ObjType)
    ensures t == ObjMachine ==> YlocType(t) == Node
    ensures t == ObjCore ==> YlocType(t) == PhysicalCore
    ensures t == ObjPu ==> YlocType(t) == LogicalCore
    ensures t == ObjNumaNode || t == ObjMemCache ==> YlocType(t) == Memory
    ensures t == ObjBridge ==> YlocType(t) == Bridge
    ensures t == ObjPciDevice ==> YlocType(t) == PCIDevice
    ensures t == ObjPackage || t == ObjDie || t == ObjGroup || t == ObjMisc ==> YlocType(t) == Misc
    ensures t.ObjCache? && 1 <= t.level <= 4 ==> YlocType(t) == DataCache(t.level)
    ensures t.ObjCache? && !(1 <= t.level <= 4) ==> YlocType(t) == DataCache(0)
    ensures t.ObjICache? && 1 <= t.level <= 3 ==> YlocType(t) == InstructionCache(t.level)
    ensures t.ObjICache? && !(1 <= t.level <= 3) ==> YlocType(t) == InstructionCache(0)
    ensures t == ObjOsDevice(OsGpu) ==> YlocType(t) == LogicalGPU
    ensures t == ObjOsDevice(OsCoproc) ==> YlocType(t) == LogicalAccelerator
    ensures t.ObjOsDevice? && t.device != OsGpu && t.device != OsCoproc ==> YlocType(t) == Misc
  {
  }
}
