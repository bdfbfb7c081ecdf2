/** src/snapshot.h and src/render.h: what a collector fills and the renderer reads. */
module Snapshots {
  import opened Util

  const MAX_CORES: nat := 128
  const MAX_DISKS: nat := 8
  const MAX_NETS: nat := 12
  const NAME_LEN: nat := 64
  const PATH_LEN: nat := 128
  const HOST_LEN: nat := 256

  datatype CoreSample = CoreSample(name: string, usage: real)

  datatype DiskSample = DiskSample(mount: string, fstype: string, totalBytes: u64, usedBytes: u64)

  datatype NetSample = NetSample(name: string, rxBytes: u64, txBytes: u64, rxBps: real, txBps: real)

  /** The host facts the model passes through unchanged. */
  datatype Facts = Facts(
    hostname: string, osName: string, osRelease: string, arch: string, hostLabel: string,
    memTotal: u64, memUsed: u64, swapTotal: u64, swapUsed: u64,
    load1: real, load5: real, load15: real, loadValid: bool,
    uptimeSec: u64, processCount: nat,
    batteryPresent: bool, batteryPercent: int, batteryCharging: bool, batteryPlugged: bool)

  datatype ResourceSnapshot = ResourceSnapshot(
    facts: Facts,
    cpuCount: int, cpuTotal: real, cores: seq<CoreSample>,
    disks: seq<DiskSample>, nets: seq<NetSample>,
    sampleDt: real, primed: bool)

  datatype RenderOptions = RenderOptions(ascii: bool, color: bool, paused: bool, intervalSec: real, cols: int)
}
