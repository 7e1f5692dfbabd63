/**
 * The exception classes thrown by the flasher, as values. The nesting follows
 * the class hierarchy: every class derives from the base `Exception`
 * (`Internal`), and the file, network and protocol families each have a
 * generic base class of their own. `ErrorPortOpen` and `ErrorPortTimeout`,
 * which `comm.cpp` throws, are grouped as `PortError`; neither `error.h` nor
 * `comm.h` declares a generic port class, so that family has no generic member.
 */
module Errors {
  datatype FileError =
    | GenericFileError | FileNotFound | FileOpen | FileCreate | FileWrite
    | FileRead | FileCrc | FileCopy | FileRemove | FolderOpen | FolderRemove

  datatype NetworkError =
    | GenericNetworkError | NetworkNotAccessible | AuthenticationRequired | Forbidden

  datatype PortError = PortOpen | PortTimeout

  datatype ProtocolError = GenericProtocolError | InvalidResponse | NackReceived

  datatype Error =
    | Internal
    | NotActive
    | Cancel
    | File(file: FileError)
    | Network(network: NetworkError)
    | PortFault(fault: PortError)
    | Protocol(protocol: ProtocolError)

  const Timeout: Error := PortFault(PortTimeout)

  /** The outcome of an operation that may throw. */
  datatype Result<+T> = Ok(value: T) | Err(error: Error)

  datatype Option<+T> = None | Some(value: T)
}
