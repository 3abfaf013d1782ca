/** Optional values, the errors the dataset loader can raise, and a result type
    carrying either a value or one of those errors. */
module Outcomes {

  datatype Option<+T> = None | Some(value: T)

  /** The exceptions numpy / Python raise while the dataset is built or indexed. */
  datatype Error =
    | EmptyFileList               // np.vstack of an empty list of per-file arrays
    | ShapeMismatch               // np.vstack of per-file arrays whose trailing shapes differ
    | NeutrinoColumnOutOfBounds   // nu[..., [1, 2, 3]] on fewer than four neutrino features
    | NeutrinoNameOutOfBounds     // nu_vars[3] with fewer than four neutrino field names
    | ChargeColumnOutOfBounds     // lep[..., -2] on fewer than two lepton features
    | EventIndexOutOfBounds       // self.misc[idx] with idx outside [-len, len)
    | NeutrinoIndexOutOfBounds    // self.nu[idx][1] on fewer than two neutrinos per event

  datatype Result<+T> = Ok(value: T) | Err(error: Error)
}
