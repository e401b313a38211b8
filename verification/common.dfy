/** Shared vocabulary of the renderer model: fixed-width integer ranges, the
    engine's compile-time maxima, the graphics API's result codes and the
    engine's own result codes. */
module Common {

  /** Largest value of a 32-bit unsigned integer (`UINT32_MAX`). */
  const U32_MAX: int := 0xFFFF_FFFF

  /** Largest value of `size_t`; the model assumes a 64-bit target. */
  const SIZE_MAX: int := 0xFFFF_FFFF_FFFF_FFFF

  type u32 = x: int | 0 <= x <= U32_MAX

  type usize = x: int | 0 <= x <= SIZE_MAX

  /** Capacity of the fixed per-image arrays (swapchain images, framebuffers,
      per-image fences and semaphores). */
  const MAX_SWAPCHAIN_IMAGES: nat := 4

  /** Number of rotating frame slots. */
  const MAX_FRAMES_IN_FLIGHT: nat := 2

  /** The null handle of the graphics API; every real handle is positive. */
  const NULL_HANDLE: nat := 0

  datatype Option<T> = None | Some(value: T)

  /** The result codes of the graphics API that the core distinguishes. */
  datatype VkResult =
    | VkSuccess
    | VkSuboptimal
    | VkTimeout
    | VkNotReady
    | VkErrorOutOfDate
    | VkErrorInitializationFailed
    | VkErrorOutOfHostMemory
    | VkErrorOutOfDeviceMemory
    | VkErrorDeviceLost
    | VkErrorOther(code: int)

  /** The engine's own result codes. */
  datatype Status =
    | Ok
    | ErrorGeneric
    | ErrorOutOfMemory
    | ErrorFileNotFound
    | ErrorVulkan
    | ErrorWindow
    | ErrorDevice

  /** The outcome the environment reports for the `i`-th call of a repeated
      API call; calls past the end of the script succeed. */
  function ResultAt(results: seq<VkResult>, i: nat): VkResult
  {
    if i < |results| then results[i] else VkSuccess
  }

  /** A sequence of `n` null handles, the state `memset` leaves behind. */
  function Nulls(n: nat): (r: seq<nat>)
    ensures |r| == n
    ensures forall i :: 0 <= i < n ==> r[i] == NULL_HANDLE
  {
    seq(n, _ => NULL_HANDLE)
  }
}
