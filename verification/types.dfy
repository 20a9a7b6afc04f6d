/** The error kinds that the driver reports (error.rs, as used by driver.rs). */
module Errors {

  /** A per-reading error flag decoded from the distance field. */
  datatype ReadingError =
    | InvalidDataError(code: nat)   // bit 15 set; the code is the low byte
    | SignalStrengthWarning         // bit 14 set

  /** A driver-level error sent to the consumer. The I/O error payloads of the
      serial crate are not modelled; only the kind of failure is kept. */
  datatype DriverError =
    | Checksum(frameIndex: nat)     // checksum mismatch, with the frame index
    | ResyncRequired                // bad header while synchronised
    | SerialRead                    // a read from the serial port failed
    | OpenSerialPort                // the port could not be opened
    | SetTimeout                    // the read timeout could not be set
    | Configure                     // the port could not be configured
}

/** Decoded LIDAR data (data.rs). */
module Data {
  import opened Wrappers
  import opened Errors

  /** One angular distance reading. */
  datatype Reading = Reading(index: nat, distance: int, quality: int, error: Option<ReadingError>)

  /** A decoded frame: four readings and the raw little-endian spin speed
      (the RPM is this value divided by 64). */
  datatype Packet = Packet(readings: seq<Reading>, speed: nat)
}

/** Commands to and messages from the driver (message.rs). */
module Messages {
  import opened Wrappers
  import opened Errors
  import opened Data

  datatype Command = Pause | Run | Stop

  datatype DriverMessage =
    | Error(error: DriverError)     // declared by the source, never sent by driver.rs
    | PacketMessage(packet: Packet)
    | Shutdown

  /** What travels over the outbound channel: `Result<LidarDriverMessage, LidarDriverError>`. */
  type Outbound = Result<DriverMessage, DriverError>
}
