/** Error numbers returned by the modelled drivers, as negative values of the C `int`. */
module Errno {

  /** What a kernel call returns: 0 for success or a negative error number. */
  type Rc = x: int | x <= 0

  const ENODEV: Rc := -19
  const ENOMEM: Rc := -12
  const EINVAL: Rc := -22
  const ETIMEDOUT: Rc := -110
  const EPROBE_DEFER: Rc := -517
  const ENOTSUPP: Rc := -524
}
