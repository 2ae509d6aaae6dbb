/** Error numbers the modelled code returns (negated) to its callers. */
module Errno {
  const ENOENT := 2
  const ESRCH := 3
  const EBADF := 9
  const ENOMEM := 12
  const ENOTDIR := 20
  const EISDIR := 21
  const EINVAL := 22
  const EMFILE := 24
  const ENOSPC := 28
  const EDEADLK := 35
  const ENAMETOOLONG := 36
  const ENOTEMPTY := 39
}
