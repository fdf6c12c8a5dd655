/** A session and its two packet counters (pkg/net/session.go). */
module Sessions {
  import opened Framing

  class Session {
    const uid: int
    const cipher: Cipher
    var csIndex: int
    var scIndex: int

    constructor (uid: int, cipher: Cipher)
      ensures this.uid == uid && this.cipher == cipher && csIndex == 0 && scIndex == 1
    {
      this.uid := uid;
      this.cipher := cipher;
      csIndex := 0;
      scIndex := 1;
    }

    method IncreaseCSIndex() returns (index: int)
      modifies this`csIndex
      ensures csIndex == old(csIndex) + 1 == index
    {
      csIndex := csIndex + 1;
      return csIndex;
    }

    method IncreaseSCIndex() returns (index: int)
      modifies this`scIndex
      ensures scIndex == old(scIndex) + 1 == index
    {
      scIndex := scIndex + 1;
      return scIndex;
    }
  }
}
