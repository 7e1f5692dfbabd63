/**
 * The progress messages the link layer reports to the user interface
 * through its `hint`, `info` and `warning` signals; the wording is left out,
 * each message is named by what it reports.
 */
module Messages {
  datatype Message =
    | EnterIspHint                        // "Enter ISP mode and connect device..."
    | DeviceAcked                         // the device answered the start frame with ACK
    | AlreadyConnected                    // the device answered with NACK: it was synchronised before
    | Dumping(first: bv32, last: bv32)    // the address range of a dump
    | NewLine                             // ends the line of progress dots before a warning
    | Retrain(address: bv32)              // a chunk read failed and is tried again
    | Dot                                 // one progress dot
    | DumpOk                              // the dump is complete
}
