/** The commands the debugger understands, as values. */
module Commands {
  import opened Words

  datatype Command =
    | Attach
    | Detach
    | ReadMemory(addr: u32, size: u32)
    | WriteMemory(addr: u32, data: seq<u8>)
    | InsertBreakpoint(addr: u32, kind: u8)
    | RemoveBreakpoint(addr: u32, kind: u8)
    | Continue
    | GetRegisters
    | Call(addr: u32, args: seq<u32>)
    | Reboot
    | Break
    | Flashlight(time: u32)
    | Other(code: u8)

  function TypeByte(c: Command): u8 {
    match c
    case Attach => 1
    case Detach => 2
    case ReadMemory(_, _) => 3
    case WriteMemory(_, _) => 4
    case InsertBreakpoint(_, _) => 5
    case RemoveBreakpoint(_, _) => 6
    case Continue => 7
    case GetRegisters => 8
    case Call(_, _) => 50
    case Reboot => 51
    case Break => 55
    case Flashlight(_) => 80
    case Other(code) => code
  }
}
