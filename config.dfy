/** The frame constants of the cluster's configuration (config.py). */
module Config {
  /** Sentinel at the start of every frame, sent little-endian as the bytes 0x5A, 0xA5. */
  const FrameMagic: int := 0xA55A
  /** The only protocol version the reader accepts. */
  const FrameVersion: int := 1
  /** Total frame length the reader cuts off and expects in the length byte. */
  const FrameLenBytes: int := 14
}
