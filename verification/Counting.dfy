module Counting {
  function AsCount(b: bool): nat { if b then 1 else 0 }
}
